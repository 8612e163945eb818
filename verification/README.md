# Drive PDF capture — a Dafny model

This project models the core of a small Node.js service. The service turns a view-only Google
Drive PDF into a downloadable PDF. It opens the document in a headless browser and watches the
page-image requests the viewer issues. Each request is rewritten to the lossless, 2400-pixel-wide
variant. The viewer is scrolled so that it asks for every page. The images are then downloaded in
capture order and laid out one per PDF page. The project also models the standalone script that
does the same for one fixed document, and the structured logger.

Modules, in dependency order:

- `Wrappers` (`wrappers.dfy`): `Option`, `Result` and `Outcome`. An `Outcome` is a step that
  either completes or throws an error with a message.
- `Text` (`text.dfy`): the JavaScript built-ins the code relies on, as pure functions:
  - `includes`;
  - `replace` with a string pattern (leftmost occurrence only);
  - `replace` and `match` with the patterns `w=\d+` and `page=(\d+)`;
  - `trim`, with JavaScript's white-space set;
  - `padStart`, `toString`, and `parseInt(_, 10)` on digit runs.
- `Interceptor` (`interceptor.dfy`): the request callback. It decides acceptance, normalises the
  URL and deduplicates it. The list captured over a whole session is `Capture(requests)`.
- `PageCount` (`pagecount.dfy`): the two page-count heuristics.
  - The server parses the viewer's "X of N" counter text, and falls back to the first number in it.
  - The standalone script defines a second heuristic, the largest `page=<n>` among the viewer
    image sources. Its only call (index.js:72) is commented out, so it never affects a run of the
    script; it is modelled as written.
- `Pipeline` (`pipeline.dfy`): the scroll driver, the download loop (`page_<i+1>.png`), the
  assembly of one PDF page per image, and the standalone script's run.
- `Jobs` (`jobs.dfy`): the server's in-memory job registry and its operations:
  - `POST /api/convert`;
  - `processPdfJob`;
  - `GET /api/job/:id`;
  - `GET /download/:id`.
- `Logger` (`logger.js`, modelled in `logger.dfy`):
  - the daily file name `app-YYYY-MM-DD.log`;
  - the retention pass that keeps the 30 newest files;
  - entry construction, where metadata overrides fields;
  - the four level wrappers.

Browser automation, HTTP, the file system and PDF encoding are parameters. An `Environment` value
records:

- the requests the viewer issued, in order, up to the download loop's last check of the capture
  list's length;
- what the page-count probe saw;
- whether each step (launching and navigating, creating the directory, saving, closing) completed
  or threw.

A `fetch` function stands for one page's GET and file write. Its result is what the PDF library
later finds in that file: a PNG of some size, or bytes it rejects with an error. Fresh job ids,
timestamps and the calendar date are inputs.

Behaviours of the code worth knowing, each stated by a member of the model:

- There is no per-page recovery: one failed page download fails the whole job
  (`FetchFailureFailsJob`).
- One page file that is not a PNG also fails the whole job (`UndecodablePageFailsJob`).
- Decoding starts only after every page is on disk (`UndecodablePageFailsAfterDownloads`).
- `completed` is not final. `browser.close()` runs after the job is marked completed, and a throw
  there marks it `failed` while the result locator stays set
  (`CloseFailureOverwritesCompletion`). The trail of statuses is `Processing → Completed → Failed`.
- A page count of 0 gives zero PageDown presses (`NoCounterNoScroll`). Only the standalone script
  has a fixed budget, of 100 presses.
- `queued` is set when the job is created and overwritten with `processing` before
  `processPdfJob` first suspends. `Convert` returns the job as `Queued`, and `ProcessPdfJob`
  starts every trail with `Processing`, so no request sees `queued`
  (`AcceptedJobNeverReportedQueued`).
- The registry is a plain object, so the status route answers 200 for a name every object
  inherits, such as `constructor` or `__proto__` (`JobStatus`). The download route still answers
  404 for them (`InheritedNameNotDownloadable`).

The browser is not closed on any failure path (server.js:125-129): the catch block records the
error and nothing else. The model has no close event to state this with; `ProcessPdfJob` reads
`close` only on the path where the document was saved.

## Model

| member | source | states |
|---|---|---|
| Text.ContainsOccurs | server.js:77 | `includes` holds exactly when the pattern occurs at some index |
| Text.ReplaceFirst | server.js:78 | replacing with a string pattern leaves a string without the pattern unchanged, and otherwise splices the replacement over the leftmost occurrence only |
| Text.TaggedDigits | index.js:19 | the capture of `/page=(\d+)/` is absent exactly when no tag is followed by a digit; otherwise it is the whole greedy digit run after the leftmost such tag |
| Text.ReplaceTagged | server.js:78 | `replace(/w=\d+/, …)` changes nothing without a match, and otherwise replaces the leftmost tag together with its whole digit run |
| Text.PadStart | logger.js:14 | `padStart` gives the requested width or the original length, keeps the original text as the suffix and fills the rest with the fill character |
| Text.ParseShowNat | logger.js:14 | parsing the decimal text of a number gives the number back |
| Text.ShowNatInjective | server.js:99 | distinct numbers have distinct decimal texts |
| Interceptor.AcceptMeansMarkers | server.js:77 | a request URL is accepted exactly when `viewerng/img`, `page=` and `webp=` all occur in it |
| Interceptor.NormalizeFormat | server.js:78 | the leftmost `webp=true` becomes `webp=false` in place; a URL without it is unchanged |
| Interceptor.WidthIsCanonical | server.js:78 | after normalising the width, only the leftmost `w=<digits>` has changed, and it now reads `w=2400` at the same index |
| Interceptor.NormalizeWidthIdempotent | server.js:78 | normalising the width of an already normalised URL changes nothing |
| Interceptor.Step | server.js:75-83 | the callback only appends, and at most the accepted request's canonical URL; it leaves the list unchanged for a rejected or already captured URL, and it never creates a duplicate |
| Interceptor.Capture | server.js:79-81 | the captured list never holds a URL twice |
| Interceptor.CandidatesMembers | server.js:77-78 | a canonical URL is a candidate exactly when some accepted request normalises to it |
| Interceptor.CaptureIsFirstSeenDedup | server.js:75-83 | the captured list is the accepted requests' canonical URLs with repeats dropped: same members, no duplicates, in order of first appearance |
| Interceptor.NothingAcceptedNothingCaptured | server.js:77 | when no request is a page-image request, nothing is captured |
| Interceptor.RepeatedRequestIgnored | server.js:79-81 | a request observed twice in a row is captured at most once |
| Interceptor.CaptureDistinct | server.js:79-81 | when no two accepted requests normalise to the same URL, every one of them is captured, in request order |
| PageCount.FindDigit | server.js:39 | `/\d+/` matches at the leftmost digit at or after the start, and there is no digit before it |
| PageCount.OfMatchAt | server.js:32 | where `/(\d+)\s*of\s*(\d+)/i` matches, the second group starts a maximal digit run |
| PageCount.FindOfMatch | server.js:32 | the "X of N" pattern is found at its leftmost matching index and at no earlier one |
| PageCount.TrimKeepsRuns | server.js:31 | a digit run of the trimmed counter text is a digit run, with the same value, of the original text |
| PageCount.ParseIndicatorReadsWrittenNumber | server.js:27-45 | the parsed count is 0 or the value of a whole digit run written in the counter text; it never invents a number |
| PageCount.ParseIndicatorNoDigits | server.js:39-44 | a counter text without digits gives 0 |
| PageCount.ParseIndicatorOf | server.js:32-36 | the text "a of b" gives the total b, for all a and b |
| PageCount.NoOfMatchWithoutO | server.js:32 | without a letter o or O, the "X of N" pattern matches nowhere |
| PageCount.ParseIndicatorFallback | server.js:38-42 | whenever the "X of N" pattern matches nowhere in the trimmed counter text, the count is the leftmost number in the text |
| PageCount.OfMatchAtLayout | server.js:32 | the pattern matches at the first digit of any layout `<digits><spaces>of<spaces><digits>`, with the word in either case, and its second group starts at the second digit run |
| PageCount.OfMatchIsLayout | server.js:32 | conversely, every match of the pattern is such a layout: its digit runs, white space and the word at the places the match found them |
| PageCount.SliceKeepsLayout | server.js:31-32 | a layout inside a slice that no digit follows is a layout of the whole text at the shifted indices |
| PageCount.TrimKeepsMatch | server.js:31-32 | a match in the trimmed counter text is a match in the text itself, shifted by the leading white space |
| PageCount.TrimKeepsNoMatch | server.js:31-32 | where the pattern matches nowhere before an index of the text, it matches nowhere before the corresponding index of the trimmed text |
| PageCount.TrimKeepsLayout | server.js:31 | trimming keeps such a layout, shifted by the leading white space removed |
| PageCount.TrimmedLeftmostMatch | server.js:31-32 | in a text where the pattern matches nowhere before such a layout, the layout is the leftmost match of the trimmed text |
| PageCount.ParseIndicatorReadsTotal | server.js:31-36 | for every counter text whose leftmost match is a layout, whatever comes before it (including numbers that start no match), with any white space, either letter case and any text after, the count is the number N |
| PageCount.CounterWithLabel | server.js:31-36 | "Page 3 of 12" gives 12 |
| PageCount.CounterInCapitals | server.js:32 | "3 OF 12" gives 12: the pattern ignores letter case |
| PageCount.CounterAfterVersion | server.js:32-36 | "v2: 3 of 12" gives 12: an earlier number that starts no match does not count |
| PageCount.CounterWithoutSpaces | server.js:32 | "3of12" gives 12: the white space around the word is optional |
| PageCount.CounterWithoutOf | server.js:38-42 | "Loading 5" gives 5: without an "X of N" match the leftmost number counts |
| PageCount.ViewerPageSrcMarkers | index.js:14 | an image source is considered exactly when `viewerng/img` and `page=` both occur in it |
| PageCount.PageNumberOf | index.js:19-20 | `/page=(\d+)/` yields no number exactly when no `page=` is followed by a digit |
| PageCount.PageNumberFrom | index.js:14-22 | a source contributes a number exactly when it is considered and matches, and then it contributes the matched number |
| PageCount.SomesMembers | index.js:22 | dropping the nulls keeps exactly the values some entry holds |
| PageCount.PageNumbersMembers | index.js:17-22 | a number is collected exactly when some considered source yields it |
| PageCount.Largest | index.js:24-31 | the scan gives 0 when no number was collected; otherwise it gives a collected number that is at least every collected number |
| PageCount.CountPagesFromSources | index.js:10-32 | the standalone page count is 0 without page numbers, and otherwise their maximum |
| Pipeline.AutoScroll | server.js:55-60 | `autoScroll` alternates a PageDown press and a pause of the given delay, `times` times; there are no events for a non-positive count |
| Pipeline.AutoScrollPresses | server.js:55-60 | `autoScroll` presses PageDown exactly `times` times, or zero times when `times` is not positive |
| Pipeline.ServerScrollPresses | server.js:87-89 | the server presses PageDown twice per counted page |
| Pipeline.StandaloneScrollPresses | index.js:73-74 | the standalone script presses PageDown 100 times, whatever the document |
| Pipeline.PageFileNamesDistinct | server.js:99 | different capture indices are written to different page files |
| Pipeline.DownloadAll | server.js:95-102 | downloads run in capture order, the i-th to `page_<i+1>.png`; the first failing GET stops the loop with its error, and only the pages before it are saved |
| Pipeline.DownloadAllCompletes | server.js:95-102 | the download loop completes exactly when every captured URL can be fetched |
| Pipeline.Assemble | server.js:104-116 | assembly succeeds exactly when every saved file is a PNG; it then gives one page per file, in order, sized to its image and fully covered by it; otherwise it fails with the error of the first file that is not a PNG |
| Pipeline.AssembleAppend | server.js:106-116 | assembling two runs of PNGs one after the other is the same as assembling their concatenation |
| Pipeline.Produce | server.js:95-116 | downloading then assembling gives a document exactly when it reports no error |
| Pipeline.ProduceSucceeds | server.js:95-116 | producing the document fails exactly when some captured URL cannot be fetched or is not a PNG |
| Pipeline.ProduceFollowsCapture | server.js:95-116 | when every page is usable, the document has one page per captured URL, in capture order, each showing the image from that URL, whose file is `page_<i+1>.png` |
| Pipeline.UndecodablePageFailsAfterDownloads | server.js:96-108 | a file that is not a PNG fails the run only after every page is on disk, with the error of the first such file |
| Pipeline.RunStandalone | index.js:43-107 | the standalone run records an error or writes a document, and a written document comes after the fixed 100-press scroll |
| Jobs.Convert | server.js:134-151 | a missing or empty URL is refused with 400 and changes nothing; otherwise a queued job is added under the fresh id, leaving every other job as it was |
| Jobs.JobStatus | server.js:153-159 | a job is reported exactly when it exists, as stored; a name the registry object inherits from `Object.prototype` gets 200, with `{}` for `__proto__` and an empty body for a method; anything else is 404 "Job not found" |
| Jobs.InheritedNameNotDownloadable | server.js:153-165 | an inherited name gets 200 from the status route and a 404 that changes nothing from the download route |
| Jobs.AcceptedJobNeverReportedQueued | server.js:63-66 | an accepted job's run gives it only statuses from processing on, and the status route reports its final record, never queued |
| Jobs.Download | server.js:161-176 | a download is served exactly for a completed job, from `jobs/<id>/output.pdf` as `converted.pdf`, and then the job is forgotten; anything else is a 404 that changes nothing |
| Jobs.MarkFailed | server.js:126-128 | the catch block sets the job to failed with the error's message, keeps its id, creation time and result locator, and touches no other job |
| Jobs.ProcessPdfJob | server.js:63-131 | only this job changes; its statuses start at processing and follow the transitions; it ends completed exactly when every step and every page succeeds, and then has its download locator and a document; a failed job always carries an error |
| Jobs.FinishJob | server.js:104-128 | after the downloads, the job completes exactly when production, saving and closing all succeed; a close failure turns completed into failed |
| Jobs.SuccessfulJobDocument | server.js:95-123 | a successful job's document has one page per captured URL, in capture order, each sized to the image fetched from it, whose file is `page_<i+1>.png` |
| Jobs.ScrollFollowsPageCount | server.js:87-88 | once the page is open, the job presses PageDown twice per counted page |
| Jobs.CounterThreeOfTwelve | server.js:30-36 | the counter text "3 of 12" gives a count of 12 and 24 presses |
| Jobs.NoCounterNoScroll | server.js:44-51 | a counter that times out, has vanished when read or whose probe throws gives 0, and the job does not scroll |
| Jobs.FetchFailureFailsJob | server.js:96-102 | the first URL that cannot be fetched fails the job with that error; the pages before it stay saved and no document is written |
| Jobs.CloseFailureOverwritesCompletion | server.js:122-128 | a failure to close the browser turns an already completed job into failed, keeping its locator and document |
| Jobs.UndecodablePageFailsJob | server.js:104-108 | a page file that is not a PNG fails the job after every page was saved, with the error of the first such file |
| Jobs.NoRequestsEmptyDocument | server.js:95-123 | a document for which no page-image request was seen still completes, with an empty PDF |
| Jobs.JobLifecycle | server.js:134-176 | a request creates a queued job; a successful run completes it; downloading it serves the file and leaves the registry as it was before the request |
| Jobs.UnfinishedJobNotServed | server.js:162-165 | a job that is not completed gets a 404 and the registry is unchanged |
| Jobs.StandaloneMatchesServer | index.js:78-103 | when everything succeeds, the standalone script saves the same pages and writes the same document as the server |
| Logger.TwoDigitsRoundTrip | logger.js:14 | below 100, the padded field has exactly two digits and reads back as the number |
| Logger.LogFileNameRoundTrip | logger.js:12-16 | the date can be read back from the day's log file name |
| Logger.LogFileNamesDistinct | logger.js:12-16 | different days are logged to different files |
| Logger.InsertKeepsNewestFirst | logger.js:22-25 | inserting a file into a newest-first list keeps it newest first |
| Logger.SortNewestFirst | logger.js:22-25 | the sort is a permutation of the files, ordered by decreasing modification time |
| Logger.PlanCleanup | logger.js:21-27 | up to 30 files, nothing is deleted; beyond that the 30 newest are kept and the rest deleted, the two parts together are exactly the files, and no deleted file is newer than a kept one |
| Logger.CleanupOldLogs | logger.js:18-35 | a listing error is logged and nothing is removed; otherwise the planned files are unlinked in order until one throws, that error is logged, and nothing is passed on to the caller |
| Logger.Put | logger.js:40-46 | setting a property keeps the positions of existing properties, adds a property exactly when the key is new, keeps the names distinct, gives the key the new value and leaves every other key's value alone |
| Logger.SpreadDistinct | logger.js:45 | spreading metadata into an object keeps its property names distinct |
| Logger.SpreadOverrides | logger.js:45 | after spreading the metadata, a key it names has the metadata's value and every other key keeps its value |
| Logger.HeaderFields | logger.js:40-44 | the entry's own properties are exactly logId, timestamp, level and message, in that order, each holding the value supplied |
| Logger.SpreadFields | logger.js:45 | spreading keeps the existing properties first and in place, and a key's value afterwards is the metadata's last value for it if it has one, its old value otherwise |
| Logger.LogEntry | logger.js:37-46 | an entry starts with logId, timestamp, level and message; it has exactly those properties and the metadata's, each once; a metadata property overrides the field of the same name; an unoverridden field keeps the value the logger supplied |
| Logger.LogAt | logger.js:60-64 | each wrapper writes its own level (INFO, ERROR, WARN, DEBUG) and the caller's message unless the metadata overrides them |
| Logger.LogAtFile | logger.js:12-16 | each wrapper writes to the file whose name reads back as the day of the call |

## Left out

- Browser automation (launch, navigation, in-page evaluation), HTTP and the file system are
  parameters of the model. Their failures are folded into the `Outcome` of the step that calls
  them.
- A failing key press during the scroll (server.js:57) is left out. It would fail the job after
  part of the scroll. The model's scroll either does not happen (`session` threw) or runs to the
  end. Timers never fail.
- The pixel data of images and the bytes of the PDF are not modelled. An image is its width and
  height, and a PDF page is its size plus the image drawn on it.
- `fs.writeFile` of a page and reading it back are folded into `fetch`. A failed write fails the
  job exactly as a failed GET does.
- Concurrency between jobs is left out. Each job touches only its own registry entry, and that is
  what `ProcessPdfJob` states.
- One interleaving is left out. `/download/:id` can delete a completed job while
  `browser.close()` (server.js:124) is still pending. If the close then throws, the catch block's
  `jobs[jobId].status = 'failed'` (server.js:127) dereferences a missing entry. That throw rejects
  the `processPdfJob` promise, which the convert route never awaits (server.js:148). The model
  runs each job to the end before any download.
- The capture list is live: the request callback keeps appending while the pages download
  (server.js:75-83,96). The model's `requests` are those seen up to the loop's last length check.
  Requests captured after that check are not downloaded, so `downloadedImages` can end shorter
  than `imageRequests`.
- `Convert` and `ProcessPdfJob` are separate functions. In the server, `processPdfJob` runs
  synchronously up to its first `await`, so the job is already `processing` when the convert
  route replies (server.js:65,148-150). The `Queued` record `Convert` returns is never seen by a
  request; `AcceptedJobNeverReportedQueued` states what the status route does see.
- Console output and the `NODE_ENV` switch in `log` are left out: they are I/O with no effect on
  the model's state.
- `fs.appendFile` of a log entry, and its failure callback, are left out. `Log` returns the file
  and the entry it would append.
- JSON serialisation of an entry is left out. Values other than strings are kept in serialised
  form.
- Logger.LogEntry: does not model JavaScript's rule that integer-like property names come first in an
  object, so the four standard fields lead only when the metadata has no integer-like keys.
- `Logger.CleanupOldLogs`: the `readdir` and `statSync` failures are both folded into the
  listing's `Result`.
- Directory paths (`JOBS_DIR`, `OUTPUT_DIR`, `LOGS_DIR`, `path.join`) are written as relative
  names. `fs.ensureDir` is the `storage` outcome.
- The removal of the job's directory after a download is recorded as a path; its asynchronous
  failure is ignored by the source too.
- A `driveUrl` in the request body that is a non-string truthy or falsy value (a number, `false`)
  is not modelled. The body field is an optional string.
- `parseInt` of a very long digit run loses precision in JavaScript's doubles; the model's
  numbers are unbounded.
- Logger.SortNewestFirst: states a newest-first permutation but not the stability of JavaScript's sort
  for files with equal modification times.
- Logger.LogFileNameRoundTrip: stated for years from 0 on; negative years have a sign that the name
  parser does not read.
- Interceptor.CaptureDistinct: states that all requests are captured only when their canonical URLs are
  distinct; the general case is `CaptureIsFirstSeenDedup`.
- Jobs.JobStatus: the registry's own keys are assumed to be ordinary property names. A job
  stored under `__proto__` would replace the prototype instead of adding a key. `Convert` only
  stores fresh UUIDs, which never name an inherited property.
- The HTML front end and `express.static` are not part of this model.
