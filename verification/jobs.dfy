/**
 The server's job registry, an in-memory map from job id to job record, and
 the three operations that change it: `POST /api/convert` creates a job,
 `processPdfJob` runs the pipeline and records the outcome, and
 `GET /download/:id` hands out a finished document and forgets the job.
 */
module Jobs {
  import opened Wrappers
  import Interceptor
  import PageCount
  import opened Pipeline

  datatype Status = Queued | Processing | Completed | Failed

  /** A job record; `createdAt` is the creation time, kept opaque. */
  datatype Job = Job(
    id: string,
    status: Status,
    createdAt: int,
    result: Option<string>,
    error: Option<string>
  )

  type Registry = map<string, Job>

  /**
   The status changes the server can make. `Completed` is not final: closing
   the browser happens after the job is marked completed, and a failure there
   marks it failed.
   */
  predicate Transition(from: Status, to: Status) {
    || (from == Queued && to == Processing)
    || (from == Processing && to == Completed)
    || (from == Processing && to == Failed)
    || (from == Completed && to == Failed)
  }

  /** A sequence of statuses each reachable from the previous one. */
  predicate ValidTrail(trail: seq<Status>) {
    forall k | 0 < k < |trail| :: Transition(trail[k - 1], trail[k])
  }

  /** Where a finished job's document is offered. */
  function DownloadLocator(id: string): string {
    "/download/" + id
  }

  // ---------------------------------------------------------------------------
  // POST /api/convert
  // ---------------------------------------------------------------------------

  datatype ConvertReply = BadRequest(code: nat, message: string) | Accepted(jobId: string)

  /**
   Create a job for `driveUrl` under the id `freshId` (a fresh UUID) at time
   `now`. A missing or empty URL is refused with 400 and creates nothing.
   */
  function Convert(registry: Registry, driveUrl: Option<string>, freshId: string, now: int)
    : (r: (ConvertReply, Registry))
    ensures driveUrl.None? || driveUrl == Some("") ==>
              r.0 == BadRequest(400, "Drive URL is required") && r.1 == registry
    ensures driveUrl.Some? && driveUrl != Some("") ==>
              && r.0 == Accepted(freshId)
              && r.1.Keys == registry.Keys + {freshId}
              && r.1[freshId] == Job(freshId, Queued, now, None, None)
              && forall k | k in registry && k != freshId :: r.1[k] == registry[k]
  {
    if driveUrl.None? || driveUrl.value == "" then
      (BadRequest(400, "Drive URL is required"), registry)
    else
      (Accepted(freshId), registry[freshId := Job(freshId, Queued, now, None, None)])
  }

  // ---------------------------------------------------------------------------
  // GET /api/job/:id
  // ---------------------------------------------------------------------------

  /**
   The names a plain JavaScript object inherits from `Object.prototype`. The
   registry is such an object, so looking one of them up finds a value even
   when no job has that id.
   */
  const InheritedNames: set<string> := {
    "__proto__", "constructor", "toString", "toLocaleString", "valueOf",
    "hasOwnProperty", "isPrototypeOf", "propertyIsEnumerable",
    "__defineGetter__", "__defineSetter__", "__lookupGetter__", "__lookupSetter__"
  }

  datatype StatusReply =
    | JobRecord(job: Job)                       // 200 with the job as JSON
    | InheritedMember(code: nat, body: string)  // 200 with the inherited value as JSON
    | NotFound(code: nat, message: string)      // 404

  /**
   The reply for `id`: the job when there is one, the serialisation of the
   inherited value for a name of `Object.prototype` (`{}` for the prototype
   itself, nothing for a method), and 404 otherwise.
   */
  function JobStatus(registry: Registry, id: string): (r: StatusReply)
    ensures r.JobRecord? <==> id in registry
    ensures r.JobRecord? ==> r.job == registry[id]
    ensures r.InheritedMember? <==> id !in registry && id in InheritedNames
    ensures r.InheritedMember? ==> r.code == 200
    ensures r.InheritedMember? && id == "__proto__" ==> r.body == "{}"
    ensures r.InheritedMember? && id != "__proto__" ==> r.body == ""
    ensures r.NotFound? ==> r == NotFound(404, "Job not found")
  {
    if id in registry then JobRecord(registry[id])
    else if id in InheritedNames then InheritedMember(200, if id == "__proto__" then "{}" else "")
    else NotFound(404, "Job not found")
  }

  /** A name the registry only inherits gets 200 from the status route but 404 from the download route. */
  lemma InheritedNameNotDownloadable(registry: Registry, id: string)
    requires id !in registry && id in InheritedNames
    ensures JobStatus(registry, id).InheritedMember? && JobStatus(registry, id).code == 200
    ensures Download(registry, id) == (NotReady(404, "File not ready or not found"), registry)
  {
  }

  // ---------------------------------------------------------------------------
  // GET /download/:id
  // ---------------------------------------------------------------------------

  datatype DownloadReply =
    | NotReady(code: nat, message: string)
    | Served(file: string, downloadName: string, removedDirectory: string)

  /**
   Serve `jobs/<id>/output.pdf` as `converted.pdf` for a completed job, then
   remove the job's directory and registry entry; anything else is a 404 that
   changes nothing.
   */
  function Download(registry: Registry, id: string): (r: (DownloadReply, Registry))
    ensures r.0.Served? <==> id in registry && registry[id].status == Completed
    ensures r.0.NotReady? ==> r.0 == NotReady(404, "File not ready or not found") && r.1 == registry
    ensures r.0.Served? ==> r.1 == registry - {id}
    ensures r.0.Served? ==>
              r.0 == Served("jobs/" + id + "/output.pdf", "converted.pdf", "jobs/" + id)
  {
    if id !in registry || registry[id].status != Completed then
      (NotReady(404, "File not ready or not found"), registry)
    else
      (Served("jobs/" + id + "/output.pdf", "converted.pdf", "jobs/" + id), registry - {id})
  }

  // ---------------------------------------------------------------------------
  // processPdfJob
  // ---------------------------------------------------------------------------

  /** What one run of `processPdfJob` leaves behind. */
  datatype JobRun = JobRun(
    registry: Registry,
    trail: seq<Status>,         // the statuses the job was given, in order
    scroll: seq<ScrollEvent>,
    saved: seq<SavedPage>,
    pdf: Option<seq<PdfPage>>   // the document written to output.pdf, if any
  )

  /** The job's record after the catch block: failed with the thrown error's message. */
  function MarkFailed(registry: Registry, id: string, message: string): (r: Registry)
    requires id in registry
    ensures r.Keys == registry.Keys
    ensures forall k | k in registry && k != id :: r[k] == registry[k]
    ensures r[id].id == registry[id].id && r[id].createdAt == registry[id].createdAt
    ensures r[id].status == Failed && r[id].error == Some(message)
    ensures r[id].result == registry[id].result
  {
    registry[id := registry[id].(status := Failed, error := Some(message))]
  }

  /**
   Everything `processPdfJob` depends on goes right: the session opens, the
   directory is created, every captured URL downloads, the document is saved
   and the browser closes.
   */
  predicate JobSucceeds(env: Environment, fetch: string -> Result<PageFile>) {
    && env.session.Done?
    && env.storage.Done?
    && AllPagesUsable(Interceptor.Capture(env.requests), fetch)
    && env.save.Done?
    && env.close.Done?
  }

  /**
   `processPdfJob`: mark the job processing, open the document, scroll twice
   per counted page, download every captured URL, assemble and save the PDF,
   mark the job completed with its download locator, close the browser. Any
   throw marks the job failed with the error's message, also one from closing
   the browser after the job was already marked completed.
   */
  function ProcessPdfJob(registry: Registry, id: string, env: Environment,
                         fetch: string -> Result<PageFile>): (run: JobRun)
    requires id in registry
    ensures run.registry.Keys == registry.Keys
    ensures forall k | k in registry && k != id :: run.registry[k] == registry[k]
    ensures run.registry[id].id == registry[id].id
    ensures run.registry[id].createdAt == registry[id].createdAt
    ensures |run.trail| >= 2 && run.trail[0] == Processing && ValidTrail(run.trail)
    ensures run.registry[id].status == run.trail[|run.trail| - 1]
    ensures run.registry[id].status == Completed <==> JobSucceeds(env, fetch)
    ensures run.registry[id].status == Completed ==>
              run.registry[id].result == Some(DownloadLocator(id)) && run.pdf.Some?
    ensures run.registry[id].status == Failed ==> run.registry[id].error.Some?
  {
    var processing := registry[id := registry[id].(status := Processing)];
    if env.session.Threw? then
      JobRun(MarkFailed(processing, id, env.session.message), [Processing, Failed], [], [], None)
    else
      var captured := Interceptor.Capture(env.requests);
      var scroll := ServerScroll(PageCount.CountTotalPages(env.probe));
      if env.storage.Threw? then
        JobRun(MarkFailed(processing, id, env.storage.message), [Processing, Failed], scroll, [], None)
      else
        ProduceSucceeds(captured, fetch);
        FinishJob(processing, id, env, scroll, Produce(captured, fetch))
  }

  /**
   The part of `processPdfJob` after the downloads: a download error fails the
   job; otherwise the PDF is saved, the job is marked completed, and the
   browser is closed, where a throw still fails the job.
   */
  function FinishJob(processing: Registry, id: string, env: Environment,
                     scroll: seq<ScrollEvent>, p: Production): (run: JobRun)
    requires id in processing
    requires p.failure.None? ==> p.pdf.Some?
    ensures run.registry.Keys == processing.Keys
    ensures forall k | k in processing && k != id :: run.registry[k] == processing[k]
    ensures run.registry[id].id == processing[id].id
    ensures run.registry[id].createdAt == processing[id].createdAt
    ensures |run.trail| >= 2 && run.trail[0] == Processing && ValidTrail(run.trail)
    ensures run.registry[id].status == run.trail[|run.trail| - 1]
    ensures run.scroll == scroll && run.saved == p.saved
    ensures run.registry[id].status == Completed <==>
              p.failure.None? && env.save.Done? && env.close.Done?
    ensures run.registry[id].status == Completed ==>
              run.registry[id].result == Some(DownloadLocator(id)) && run.pdf == p.pdf
    ensures run.registry[id].status == Failed ==> run.registry[id].error.Some?
  {
    if p.failure.Some? then
      JobRun(MarkFailed(processing, id, p.failure.value), [Processing, Failed], scroll, p.saved, None)
    else if env.save.Threw? then
      JobRun(MarkFailed(processing, id, env.save.message), [Processing, Failed], scroll, p.saved, None)
    else
      var completed := processing[id := processing[id].(status := Completed,
                                                        result := Some(DownloadLocator(id)))];
      if env.close.Threw? then
        JobRun(MarkFailed(completed, id, env.close.message),
               [Processing, Completed, Failed], scroll, p.saved, p.pdf)
      else
        JobRun(completed, [Processing, Completed], scroll, p.saved, p.pdf)
  }

  // ---------------------------------------------------------------------------
  // Properties of a job's run
  // ---------------------------------------------------------------------------

  /**
   A successful job's document has one page per captured URL, in capture
   order, each sized to the image fetched from that URL, whose file is
   `page_<i+1>.png`.
   */
  lemma SuccessfulJobDocument(registry: Registry, id: string, env: Environment,
                              fetch: string -> Result<PageFile>)
    requires id in registry
    requires JobSucceeds(env, fetch)
    ensures var run := ProcessPdfJob(registry, id, env, fetch);
            var captured := Interceptor.Capture(env.requests);
            && run.pdf.Some?
            && |run.pdf.value| == |captured| && |run.saved| == |captured|
            && forall i | 0 <= i < |captured| ::
                 && run.saved[i] == SavedPage(captured[i], PageFileName(i), fetch(captured[i]).value)
                 && ShowsWholeImage(run.pdf.value[i], fetch(captured[i]).value.image)
  {
    var captured := Interceptor.Capture(env.requests);
    ProduceFollowsCapture(captured, fetch);
  }

  /** Once the session is open, the server presses PageDown twice per counted page. */
  lemma ScrollFollowsPageCount(registry: Registry, id: string, env: Environment,
                               fetch: string -> Result<PageFile>)
    requires id in registry
    requires env.session.Done?
    ensures Presses(ProcessPdfJob(registry, id, env, fetch).scroll)
              == 2 * PageCount.CountTotalPages(env.probe)
  {
    ServerScrollPresses(PageCount.CountTotalPages(env.probe));
  }

  /** A counter reading "3 of 12" gives a count of 12 and 24 presses. */
  lemma CounterThreeOfTwelve(registry: Registry, id: string, env: Environment,
                             fetch: string -> Result<PageFile>)
    requires id in registry
    requires env.session.Done? && env.probe == PageCount.Evaluated(Some("3 of 12"))
    ensures PageCount.CountTotalPages(env.probe) == 12
    ensures Presses(ProcessPdfJob(registry, id, env, fetch).scroll) == 24
  {
    assert Text.ShowNat(3) + " of " + Text.ShowNat(12) == "3 of 12";
    PageCount.ParseIndicatorOf(3, 12);
    ScrollFollowsPageCount(registry, id, env, fetch);
  }

  /**
   When the counter never appears, is gone when read, or the probe throws, the
   count is 0 and the server does not scroll at all.
   */
  lemma NoCounterNoScroll(registry: Registry, id: string, env: Environment,
                          fetch: string -> Result<PageFile>)
    requires id in registry
    requires env.session.Done?
    requires env.probe.CounterTimedOut? || env.probe.EvaluationFailed?
             || env.probe == PageCount.Evaluated(None)
    ensures PageCount.CountTotalPages(env.probe) == 0
    ensures Presses(ProcessPdfJob(registry, id, env, fetch).scroll) == 0
  {
    ScrollFollowsPageCount(registry, id, env, fetch);
  }

  /**
   One failing download fails the whole job with that download's error: the
   first captured URL that cannot be fetched decides the message, the pages
   before it stay on disk and no document is written.
   */
  lemma FetchFailureFailsJob(registry: Registry, id: string, env: Environment,
                             fetch: string -> Result<PageFile>, k: nat)
    requires id in registry
    requires env.session.Done? && env.storage.Done?
    requires var captured := Interceptor.Capture(env.requests);
             && k < |captured| && fetch(captured[k]).Failure?
             && forall i | 0 <= i < k :: fetch(captured[i]).Success?
    ensures var run := ProcessPdfJob(registry, id, env, fetch);
            var captured := Interceptor.Capture(env.requests);
            && run.registry[id].status == Failed
            && run.registry[id].error == Some(fetch(captured[k]).message)
            && |run.saved| == k
            && run.pdf.None?
  {
    var captured := Interceptor.Capture(env.requests);
    var d := DownloadAll(captured, fetch);
    assert |d.saved| == k;
  }

  /**
   A failure to close the browser after the document was written overwrites
   `completed` with `failed`, though the result locator stays set and the
   document exists.
   */
  lemma CloseFailureOverwritesCompletion(registry: Registry, id: string, env: Environment,
                                         fetch: string -> Result<PageFile>)
    requires id in registry
    requires env.session.Done? && env.storage.Done? && env.save.Done? && env.close.Threw?
    requires AllPagesUsable(Interceptor.Capture(env.requests), fetch)
    ensures var run := ProcessPdfJob(registry, id, env, fetch);
            && run.trail == [Processing, Completed, Failed]
            && run.registry[id].status == Failed
            && run.registry[id].result == Some(DownloadLocator(id))
            && run.registry[id].error == Some(env.close.message)
            && run.pdf.Some?
  {
    ProduceSucceeds(Interceptor.Capture(env.requests), fetch);
  }

  /**
   A page file that is not a PNG fails the job only after every page was
   downloaded, with the PDF library's error for the first such file.
   */
  lemma UndecodablePageFailsJob(registry: Registry, id: string, env: Environment,
                                fetch: string -> Result<PageFile>, k: nat)
    requires id in registry
    requires env.session.Done? && env.storage.Done?
    requires var captured := Interceptor.Capture(env.requests);
             && (forall i | 0 <= i < |captured| :: fetch(captured[i]).Success?)
             && k < |captured| && fetch(captured[k]).value.NotPng?
             && forall i | 0 <= i < k :: fetch(captured[i]).value.Png?
    ensures var run := ProcessPdfJob(registry, id, env, fetch);
            var captured := Interceptor.Capture(env.requests);
            && run.registry[id].status == Failed
            && run.registry[id].error == Some(fetch(captured[k]).value.error)
            && |run.saved| == |captured|
            && run.pdf.None?
  {
    UndecodablePageFailsAfterDownloads(Interceptor.Capture(env.requests), fetch, k);
  }

  /**
   A document in which no page-image request was ever seen still completes,
   with an empty PDF.
   */
  lemma NoRequestsEmptyDocument(registry: Registry, id: string, env: Environment,
                                fetch: string -> Result<PageFile>)
    requires id in registry
    requires env.session.Done? && env.storage.Done? && env.save.Done? && env.close.Done?
    requires forall k | 0 <= k < |env.requests| :: !Interceptor.Accept(env.requests[k])
    ensures var run := ProcessPdfJob(registry, id, env, fetch);
            run.registry[id].status == Completed && run.pdf == Some([])
  {
    Interceptor.NothingAcceptedNothingCaptured(env.requests);
  }

  /**
   The whole life of a job: a request with a URL creates a queued job under a
   fresh id; a successful run completes it; downloading it serves the
   document and leaves the registry as it was before the request.
   */
  lemma JobLifecycle(registry: Registry, driveUrl: string, freshId: string, now: int,
                     env: Environment, fetch: string -> Result<PageFile>)
    requires freshId !in registry && driveUrl != ""
    requires JobSucceeds(env, fetch)
    ensures var (reply, created) := Convert(registry, Some(driveUrl), freshId, now);
            && reply == Accepted(freshId)
            && created[freshId].status == Queued
            && var run := ProcessPdfJob(created, freshId, env, fetch);
               && run.registry[freshId].status == Completed
               && var (served, after) := Download(run.registry, freshId);
                  && served.Served?
                  && after == registry
  {
    var (reply, created) := Convert(registry, Some(driveUrl), freshId, now);
    var run := ProcessPdfJob(created, freshId, env, fetch);
    assert run.registry.Keys == registry.Keys + {freshId};
    forall k | k in registry
      ensures run.registry[k] == registry[k]
    {
      assert run.registry[k] == created[k];
    }
    RemoveAddedKey(registry, run.registry, freshId);
  }

  /** Removing the one key a registry gained gives the registry back. */
  lemma RemoveAddedKey(registry: Registry, grown: Registry, id: string)
    requires id !in registry && grown.Keys == registry.Keys + {id}
    requires forall k | k in registry :: grown[k] == registry[k]
    ensures grown - {id} == registry
  {
    assert (grown - {id}).Keys == registry.Keys;
  }

  /**
   `processPdfJob` sets `processing` before its first suspension, so before
   the convert route replies: the status route reports an accepted job with
   every status the run gives it, and never as queued.
   */
  lemma AcceptedJobNeverReportedQueued(registry: Registry, driveUrl: string, freshId: string,
                                       now: int, env: Environment,
                                       fetch: string -> Result<PageFile>)
    requires driveUrl != ""
    ensures var run := ProcessPdfJob(Convert(registry, Some(driveUrl), freshId, now).1,
                                     freshId, env, fetch);
            && (forall k | 0 <= k < |run.trail| :: run.trail[k] != Queued)
            && JobStatus(run.registry, freshId) == JobRecord(run.registry[freshId])
            && run.registry[freshId].status != Queued
  {
  }

  /** A job that has not completed cannot be downloaded, and the attempt changes nothing. */
  lemma UnfinishedJobNotServed(registry: Registry, id: string)
    requires id in registry && registry[id].status != Completed
    ensures Download(registry, id) == (NotReady(404, "File not ready or not found"), registry)
  {
  }

  /** The standalone script and the server produce the same pages and document. */
  lemma StandaloneMatchesServer(registry: Registry, id: string, env: Environment,
                                fetch: string -> Result<PageFile>)
    requires id in registry
    requires JobSucceeds(env, fetch)
    ensures var run := ProcessPdfJob(registry, id, env, fetch);
            var alone := RunStandalone(env, fetch);
            && alone.error.None?
            && alone.saved == run.saved
            && alone.written == run.pdf
  {
    ProduceSucceeds(Interceptor.Capture(env.requests), fetch);
  }
}
