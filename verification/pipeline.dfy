/**
 The capture-to-document pipeline shared by the server's job and the
 standalone script: scroll the viewer with PageDown presses, download every
 captured URL in order to `page_<i+1>.png`, then build one PDF page per image,
 sized to that image, in the same order.

 Browser automation, HTTP, the file system and PDF encoding are outside the
 model: the browser is described by an `Environment` of observed requests and
 step outcomes, and each URL's download (GET, file write, read back and PNG
 decode) by a `fetch` oracle.
 */
module Pipeline {
  import opened Wrappers
  import opened Text
  import Interceptor
  import PageCount

  // ---------------------------------------------------------------------------
  // Scrolling
  // ---------------------------------------------------------------------------

  /** An effect of the scroll driver on the page. */
  datatype ScrollEvent = PageDown | Pause(ms: nat)

  /** Milliseconds between two PageDown presses. */
  const ScrollDelay: nat := 500
  /** Milliseconds waited after scrolling for late page requests. */
  const SettleDelay: nat := 2000
  /** Presses of the standalone script, which does not count pages. */
  const StandaloneScrollTimes: nat := 100

  /**
   `autoScroll(page, times, delay)`: `times` presses, each followed by one
   pause of `delay` milliseconds; none at all when `times` is not positive.
   */
  function AutoScroll(times: int, delay: nat): (events: seq<ScrollEvent>)
    ensures |events| == 2 * (if times > 0 then times else 0)
    ensures forall k | 0 <= k < |events| ::
              events[k] == if k % 2 == 0 then PageDown else Pause(delay)
    decreases times
  {
    if times <= 0 then [] else AutoScroll(times - 1, delay) + [PageDown, Pause(delay)]
  }

  /** The number of PageDown presses among `events`. */
  function Presses(events: seq<ScrollEvent>): nat {
    if |events| == 0 then 0
    else Presses(events[..|events| - 1]) + (if events[|events| - 1] == PageDown then 1 else 0)
  }

  /** `autoScroll` presses PageDown exactly `times` times (zero for a non-positive count). */
  lemma {:induction false} AutoScrollPresses(times: int, delay: nat)
    ensures Presses(AutoScroll(times, delay)) == if times > 0 then times else 0
    decreases times
  {
    if times > 0 {
      var before := AutoScroll(times - 1, delay);
      var after := AutoScroll(times, delay);
      AutoScrollPresses(times - 1, delay);
      assert after[..|after| - 1] == before + [PageDown];
      assert (before + [PageDown])[..|before|] == before;
    }
  }

  /** The server's scroll: two presses per counted page, then the settle pause. */
  function ServerScroll(totalPages: nat): seq<ScrollEvent> {
    AutoScroll(totalPages * 2, ScrollDelay) + [Pause(SettleDelay)]
  }

  /** The standalone script's scroll: a fixed budget, then the settle pause. */
  function StandaloneScroll(): seq<ScrollEvent> {
    AutoScroll(StandaloneScrollTimes, ScrollDelay) + [Pause(SettleDelay)]
  }

  /** The server presses PageDown twice per page its probe reports. */
  lemma ServerScrollPresses(totalPages: nat)
    ensures Presses(ServerScroll(totalPages)) == 2 * totalPages
  {
    var s := AutoScroll(totalPages * 2, ScrollDelay);
    AutoScrollPresses(totalPages * 2, ScrollDelay);
    assert (s + [Pause(SettleDelay)])[..|s|] == s;
  }

  /** The standalone script presses PageDown 100 times whatever the document. */
  lemma StandaloneScrollPresses()
    ensures Presses(StandaloneScroll()) == 100
  {
    var s := AutoScroll(StandaloneScrollTimes, ScrollDelay);
    AutoScrollPresses(StandaloneScrollTimes, ScrollDelay);
    assert (s + [Pause(SettleDelay)])[..|s|] == s;
  }

  // ---------------------------------------------------------------------------
  // Downloading
  // ---------------------------------------------------------------------------

  /** The pixel size of a decoded PNG; its pixels are not modelled. */
  datatype Image = Image(width: nat, height: nat)

  /**
   What a downloaded page file holds, as the PDF library sees it when the file
   is read back: a PNG of some size, or bytes it refuses with an error.
   */
  datatype PageFile = Png(image: Image) | NotPng(error: string)

  /** A downloaded page: its URL, the file it was written to and what that file holds. */
  datatype SavedPage = SavedPage(url: string, file: string, content: PageFile)

  /** The file the page at (0-based) capture index `index` is written to. */
  function PageFileName(index: nat): string {
    "page_" + ShowNat(index + 1) + ".png"
  }

  /** Different capture indices are written to different files. */
  lemma PageFileNamesDistinct(i: nat, j: nat)
    requires i != j
    ensures PageFileName(i) != PageFileName(j)
  {
    ShowNatInjective(i + 1, j + 1);
    var f, g := PageFileName(i), PageFileName(j);
    assert f[5..|f| - 4] == ShowNat(i + 1);
    assert g[5..|g| - 4] == ShowNat(j + 1);
  }

  /** The downloads of a job: the pages saved, and the error that stopped them, if any. */
  datatype Downloads = Downloads(saved: seq<SavedPage>, failure: Option<string>)

  /**
   The download loop: every URL in capture order, the i-th written to
   `page_<i+1>.png`. `fetch` stands for the GET and the file write. There is
   no per-page recovery: the first failing URL stops the loop with its error,
   and only the pages before it are saved.
   */
  function DownloadAll(urls: seq<string>, fetch: string -> Result<PageFile>): (d: Downloads)
    ensures |d.saved| <= |urls|
    ensures forall i | 0 <= i < |d.saved| ::
              && fetch(urls[i]).Success?
              && d.saved[i] == SavedPage(urls[i], PageFileName(i), fetch(urls[i]).value)
    ensures d.failure.None? ==> |d.saved| == |urls|
    ensures d.failure.Some? ==>
              |d.saved| < |urls| && fetch(urls[|d.saved|]) == Failure(d.failure.value)
  {
    if |urls| == 0 then Downloads([], None)
    else
      var last := |urls| - 1;
      var before := DownloadAll(urls[..last], fetch);
      if before.failure.Some? then before
      else
        match fetch(urls[last])
        case Failure(message) => Downloads(before.saved, Some(message))
        case Success(content) =>
          Downloads(before.saved + [SavedPage(urls[last], PageFileName(last), content)], None)
  }

  /** The downloads complete exactly when every URL can be fetched. */
  lemma DownloadAllCompletes(urls: seq<string>, fetch: string -> Result<PageFile>)
    ensures DownloadAll(urls, fetch).failure.None? <==>
              forall i | 0 <= i < |urls| :: fetch(urls[i]).Success?
  {
  }

  // ---------------------------------------------------------------------------
  // Assembling
  // ---------------------------------------------------------------------------

  /** Where an image is drawn on a PDF page. */
  datatype Placement = Placement(x: int, y: int, width: nat, height: nat)

  /** A PDF page: its size, and the image drawn on it. */
  datatype PdfPage = PdfPage(width: nat, height: nat, image: Image, drawn: Placement)

  /** The page is exactly the image's size and the image covers all of it. */
  predicate ShowsWholeImage(p: PdfPage, image: Image) {
    && p.image == image
    && p.width == image.width && p.height == image.height
    && p.drawn == Placement(0, 0, p.width, p.height)
  }

  /**
   The assembly loop: one page per saved file, in the same order, each page
   sized to its image with the image drawn at the origin at full size. The
   first file that is not a PNG aborts the loop with the library's error.
   */
  function Assemble(saved: seq<SavedPage>): (r: Result<seq<PdfPage>>)
    ensures r.Success? <==> forall i | 0 <= i < |saved| :: saved[i].content.Png?
    ensures r.Success? ==>
              && |r.value| == |saved|
              && forall i | 0 <= i < |saved| :: ShowsWholeImage(r.value[i], saved[i].content.image)
    ensures r.Failure? ==>
              exists k | 0 <= k < |saved| ::
                && saved[k].content == NotPng(r.message)
                && forall i | 0 <= i < k :: saved[i].content.Png?
  {
    if |saved| == 0 then Success([])
    else
      var front := saved[..|saved| - 1];
      match Assemble(front)
      case Failure(message) =>
        assert forall i | 0 <= i < |front| :: front[i] == saved[i];
        Failure(message)
      case Success(pages) =>
        match saved[|saved| - 1].content
        case NotPng(error) => Failure(error)
        case Png(image) =>
          Success(pages + [PdfPage(image.width, image.height, image,
                                   Placement(0, 0, image.width, image.height))])
  }

  /** Assembling two runs of PNGs one after the other is assembling their concatenation. */
  lemma {:induction false} AssembleAppend(a: seq<SavedPage>, b: seq<SavedPage>)
    requires Assemble(a).Success? && Assemble(b).Success?
    ensures Assemble(a + b) == Success(Assemble(a).value + Assemble(b).value)
    decreases |b|
  {
    if |b| > 0 {
      var b' := b[..|b| - 1];
      var last := b[|b| - 1];
      assert (a + b)[..|a + b| - 1] == a + b';
      assert (a + b)[|a + b| - 1] == last;
      assert last.content.Png?;
      assert Assemble(b').Success?;
      AssembleAppend(a, b');
      var page := PdfPage(last.content.image.width, last.content.image.height, last.content.image,
                          Placement(0, 0, last.content.image.width, last.content.image.height));
      assert Assemble(b).value == Assemble(b').value + [page];
      assert Assemble(a + b).value == Assemble(a + b').value + [page];
      assert Assemble(a).value + Assemble(b').value + [page]
             == Assemble(a).value + (Assemble(b').value + [page]);
    } else {
      assert a + b == a;
      assert Assemble(a).value + Assemble(b).value == Assemble(a).value;
    }
  }

  /** The part of a run both entry points share: download, then assemble. */
  datatype Production = Production(saved: seq<SavedPage>, pdf: Option<seq<PdfPage>>, failure: Option<string>)

  function Produce(urls: seq<string>, fetch: string -> Result<PageFile>): (p: Production)
    ensures p.failure.None? <==> p.pdf.Some?
  {
    var d := DownloadAll(urls, fetch);
    if d.failure.Some? then Production(d.saved, None, d.failure)
    else
      match Assemble(d.saved)
      case Failure(error) => Production(d.saved, None, Some(error))
      case Success(pdf) => Production(d.saved, Some(pdf), None)
  }

  /** Every URL downloads, and to a file the PDF library reads as a PNG. */
  predicate AllPagesUsable(urls: seq<string>, fetch: string -> Result<PageFile>) {
    forall i | 0 <= i < |urls| :: fetch(urls[i]).Success? && fetch(urls[i]).value.Png?
  }

  /**
   When every captured URL downloads to a PNG, the document has one page per
   URL, in capture order, each showing the image fetched from that URL; the
   i-th image sits in `page_<i+1>.png`.
   */
  lemma ProduceFollowsCapture(urls: seq<string>, fetch: string -> Result<PageFile>)
    requires AllPagesUsable(urls, fetch)
    ensures Produce(urls, fetch).pdf.Some?
    ensures var p := Produce(urls, fetch);
            && |p.saved| == |urls| && |p.pdf.value| == |urls|
            && forall i | 0 <= i < |urls| ::
                 && p.saved[i].file == PageFileName(i)
                 && ShowsWholeImage(p.pdf.value[i], fetch(urls[i]).value.image)
  {
    DownloadAllCompletes(urls, fetch);
  }

  /** Producing the document fails exactly when some URL fails to download or is not a PNG. */
  lemma ProduceSucceeds(urls: seq<string>, fetch: string -> Result<PageFile>)
    ensures Produce(urls, fetch).failure.None? <==> AllPagesUsable(urls, fetch)
  {
    DownloadAllCompletes(urls, fetch);
  }

  /**
   Decoding happens only after every page is downloaded: when all downloads
   succeed but the k-th file is the first that is not a PNG, every page is on
   disk and the run fails with that file's error.
   */
  lemma UndecodablePageFailsAfterDownloads(urls: seq<string>, fetch: string -> Result<PageFile>,
                                           k: nat)
    requires forall i | 0 <= i < |urls| :: fetch(urls[i]).Success?
    requires k < |urls| && fetch(urls[k]).value.NotPng?
    requires forall i | 0 <= i < k :: fetch(urls[i]).value.Png?
    ensures var p := Produce(urls, fetch);
            && |p.saved| == |urls|
            && p.pdf.None?
            && p.failure == Some(fetch(urls[k]).value.error)
  {
    DownloadAllCompletes(urls, fetch);
    var saved := DownloadAll(urls, fetch).saved;
    var r := Assemble(saved);
    assert saved[k].content.NotPng?;
    var j :| 0 <= j < |saved| && saved[j].content == NotPng(r.message)
             && forall i | 0 <= i < j :: saved[i].content.Png?;
    assert j == k;
  }

  // ---------------------------------------------------------------------------
  // The browser session
  // ---------------------------------------------------------------------------

  /**
   What the browser and the file system do during one run. The capture list
   is live: the request callback keeps appending to it while the pages
   download, so `requests` holds the requests the page issued up to the
   download loop's last check of the list's length, in order. The loop ends
   at that check, and nothing captured after it is downloaded.
   */
  datatype Environment = Environment(
    storage: Outcome,       // creating the output directory
    session: Outcome,       // launching the browser, opening a page, navigating to the document
    requests: seq<string>,  // the request URLs seen before the download loop's final check, in order
    probe: PageCount.Probe, // what the server's page-count probe observes
    save: Outcome,          // serialising the PDF and writing output.pdf
    close: Outcome          // closing the browser
  )

  /** What the standalone script leaves behind. */
  datatype StandaloneRun = StandaloneRun(
    scroll: seq<ScrollEvent>,
    captured: seq<string>,
    saved: seq<SavedPage>,
    written: Option<seq<PdfPage>>,
    error: Option<string>
  )

  /**
   The standalone script: create the output directory, open the document,
   scroll a fixed 100 presses, then download and assemble. Its errors are not
   caught; they end the run with the error recorded.
   */
  function RunStandalone(env: Environment, fetch: string -> Result<PageFile>): (run: StandaloneRun)
    ensures run.error.None? ==> run.written.Some?
    ensures run.written.Some? ==> run.scroll == StandaloneScroll()
  {
    if env.storage.Threw? then StandaloneRun([], [], [], None, Some(env.storage.message))
    else if env.session.Threw? then StandaloneRun([], [], [], None, Some(env.session.message))
    else
      var captured := Interceptor.Capture(env.requests);
      var p := Produce(captured, fetch);
      if p.failure.Some? then StandaloneRun(StandaloneScroll(), captured, p.saved, None, p.failure)
      else if env.save.Threw? then
        StandaloneRun(StandaloneScroll(), captured, p.saved, None, Some(env.save.message))
      else if env.close.Threw? then
        StandaloneRun(StandaloneScroll(), captured, p.saved, p.pdf, Some(env.close.message))
      else StandaloneRun(StandaloneScroll(), captured, p.saved, p.pdf, None)
  }
}
