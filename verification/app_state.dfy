/**
 * The state of the image workbench component as a value, and the transition each event
 * handler applies to it. The class in module AppComponent updates its fields in place and
 * is proved to move exactly as these functions say; the lemmas here state what the
 * handlers promise, one call at a time and over any sequence of events.
 */
module AppState {
  import opened Wrappers
  import opened Media

  /**
   * The six pieces of component state, plus the number of object URLs the browser has
   * created so far in the session (which makes every newly created URL fresh).
   */
  datatype State = State(
    original: Option<FileRec>,
    originalUrl: Url,
    compressed: Option<FileRec>,
    compressedUrl: Url,
    isCompressing: bool,
    error: Banner,
    urlsCreated: nat)

  /** What the compressor's promise settles with: the compressed file, or a rejection. */
  datatype Outcome = Compressed(file: FileRec) | Rejected

  /** The result of a click on the download button. */
  datatype Download =
    | Skipped                                   // no compressed image: the handler returns at once
    | Save(filename: string, href: Url)         // a save of the compressed image under this name
    | ThrowsTypeError                           // a compressed image but no original: `originalImage.name` on null

  const DownloadPrefix: string := "compressed_"

  /** The state on first render: every useState initial value. */
  function Initial(urlsCreated: nat): (s: State)
    ensures Inv(s) && UploadShown(s) && !ButtonsShown(s) && !BannerShown(s) && !s.isCompressing
    ensures s.urlsCreated == urlsCreated
  {
    State(None, NoUrl, None, NoUrl, false, NoError, urlsCreated)
  }

  /** Whether the picker or drop payload is a file the upload handler accepts. */
  predicate Accepted(file: Option<FileRec>)
    ensures file.None? ==> !Accepted(file)
    ensures Accepted(file) ==> Supported(file.value.mime)
  {
    file.Some? && Supported(file.value.mime)
  }

  /** The clear handler: drops both images and both URLs and the busy flag; the banner is kept. */
  function Reset(s: State): (r: State)
    ensures Inv(r) && UploadShown(r) && !ButtonsShown(r)
    ensures r.original == None && r.compressed == None && !r.isCompressing
    ensures r.error == s.error && r.urlsCreated == s.urlsCreated
  {
    s.(original := None, originalUrl := NoUrl, compressed := None, compressedUrl := NoUrl, isCompressing := false)
  }

  /**
   * The upload handler. An accepted file becomes the original with a newly created URL and
   * clears any result and the banner; anything else raises the upload banner and resets.
   */
  function Upload(s: State, file: Option<FileRec>): (r: State)
    ensures Inv(s) ==> Inv(r)
    ensures Accepted(file) ==> ButtonsShown(r) && !DownloadEnabled(r) && r.error == NoError
                               && (CompressEnabled(r) <==> !s.isCompressing)
    ensures !Accepted(file) ==> UploadShown(r) && r.error == UploadError && !r.isCompressing
  {
    if Accepted(file) then
      s.(original := file, originalUrl := ObjectUrl(s.urlsCreated), compressed := None, compressedUrl := NoUrl,
         error := NoError, urlsCreated := s.urlsCreated + 1)
    else
      Reset(s.(error := UploadError))
  }

  /** The drop handler: a drop without a file is ignored, otherwise it goes through the upload handler. */
  function Drop(s: State, file: Option<FileRec>): (r: State)
    ensures file.None? ==> r == s
    ensures file.Some? ==> r == Upload(s, file)
  {
    if file.Some? then Upload(s, file) else s
  }

  /** The compress handler up to its await: nothing without an original, else busy with the banner cleared. */
  function StartCompress(s: State): (r: State)
    ensures Inv(s) ==> Inv(r)
    ensures s.original.None? ==> r == s
    ensures s.original.Some? ==> r.isCompressing && r.error == NoError && !CompressEnabled(r)
    ensures r.original == s.original && r.compressed == s.compressed
  {
    if s.original.None? then s else s.(isCompressing := true, error := NoError)
  }

  /** The compress handler after its await: commit the result or raise the failure banner, then not busy. */
  function FinishCompress(s: State, outcome: Outcome): (r: State)
    ensures Inv(s) ==> Inv(r)
    ensures !r.isCompressing && r.original == s.original
    ensures outcome.Compressed? ==> DownloadEnabled(r) && !CompressEnabled(r)
    ensures outcome.Rejected? ==> r.error == CompressError && r.compressed == s.compressed
  {
    match outcome
    case Compressed(f) =>
      s.(compressed := Some(f), compressedUrl := ObjectUrl(s.urlsCreated), isCompressing := false,
         urlsCreated := s.urlsCreated + 1)
    case Rejected =>
      s.(error := CompressError, isCompressing := false)
  }

  /** The compress button's enabled state (it is disabled while busy or once a result exists). */
  predicate CompressEnabled(s: State)
    ensures CompressEnabled(s) ==> DownloadOf(s) == Skipped
    ensures !s.isCompressing ==> (CompressEnabled(s) <==> !DownloadEnabled(s))
  {
    !s.isCompressing && s.compressed.None?
  }

  /** The error banner is rendered only while its text is not empty. */
  predicate BannerShown(s: State)
    ensures BannerShown(s) <==> s.error != NoError
  {
    Message(s.error) != ""
  }

  /** The picker and the drop zone are rendered only while there is no original. */
  predicate UploadShown(s: State)
    ensures Inv(s) ==> (UploadShown(s) <==> s.originalUrl == NoUrl)
  {
    s.original.None?
  }

  /** The compress, download and clear buttons are rendered only while there is an original. */
  predicate ButtonsShown(s: State)
    ensures ButtonsShown(s) <==> !UploadShown(s)
  {
    s.original.Some?
  }

  /** The download button's enabled state. */
  predicate DownloadEnabled(s: State)
    ensures DownloadEnabled(s) <==> DownloadOf(s) != Skipped
  {
    s.compressed.Some?
  }

  /** What a click on the download button does in state `s` (it changes no state). */
  function DownloadOf(s: State): (d: Download)
    ensures s.compressed.None? <==> d == Skipped
    ensures d == ThrowsTypeError <==> s.compressed.Some? && s.original.None?
    ensures d.Save? ==> s.original.Some? && d.href == s.compressedUrl
    ensures d.Save? ==> |d.filename| == |DownloadPrefix| + |s.original.value.name|
                        && d.filename[..|DownloadPrefix|] == DownloadPrefix
                        && d.filename[|DownloadPrefix|..] == s.original.value.name
  {
    if s.compressed.None? then Skipped
    else if s.original.None? then ThrowsTypeError
    else Save(DownloadPrefix + s.original.value.name, s.compressedUrl)
  }

  /** A user or browser event delivered to the component. */
  datatype Event =
    | Picked(file: Option<FileRec>)
    | Dropped(file: Option<FileRec>)
    | Cleared
    | CompressClicked
    | CompressSettled(outcome: Outcome)
    | DownloadClicked

  function Step(s: State, e: Event): State
  {
    match e
    case Picked(f) => Upload(s, f)
    case Dropped(f) => Drop(s, f)
    case Cleared => Reset(s)
    case CompressClicked => StartCompress(s)
    case CompressSettled(o) => FinishCompress(s, o)
    case DownloadClicked => s
  }

  /** The state after the events of `trace`, in order, starting from `s`. */
  function Run(s: State, trace: seq<Event>): State
    decreases |trace|
  {
    if trace == [] then s else Run(Step(s, trace[0]), trace[1..])
  }

  /** A URL held in state was created earlier in the session. */
  predicate Issued(u: Url, urlsCreated: nat)
  {
    u.ObjectUrl? ==> u.id < urlsCreated
  }

  /**
   * The invariant every handler keeps: each image is held together with its URL, the busy
   * flag is only set while there is an original, and the two URLs are distinct, created ones.
   * It does NOT include "a result is held only with its original": see StaleCompletionOrphansResult.
   */
  predicate Inv(s: State)
  {
    && (s.original.Some? <==> s.originalUrl.ObjectUrl?)
    && (s.compressed.Some? <==> s.compressedUrl.ObjectUrl?)
    && (s.isCompressing ==> s.original.Some?)
    && Issued(s.originalUrl, s.urlsCreated)
    && Issued(s.compressedUrl, s.urlsCreated)
    && (s.originalUrl.ObjectUrl? && s.compressedUrl.ObjectUrl? ==> s.originalUrl != s.compressedUrl)
  }

  // ----- one call at a time -----

  lemma UploadAccepts(s: State, f: FileRec)
    requires Supported(f.mime)
    ensures var r := Upload(s, Some(f));
      && r.original == Some(f)
      && r.originalUrl == ObjectUrl(s.urlsCreated) && !Issued(r.originalUrl, s.urlsCreated)
      && r.compressed == None && r.compressedUrl == NoUrl
      && r.error == NoError
      && r.isCompressing == s.isCompressing
  {
  }

  lemma UploadRejects(s: State, file: Option<FileRec>)
    requires !Accepted(file)
    ensures var r := Upload(s, file);
      && r.error == UploadError
      && r.original == None && r.originalUrl == NoUrl
      && r.compressed == None && r.compressedUrl == NoUrl
      && !r.isCompressing
      && r.urlsCreated == s.urlsCreated
      && Reset(r) == r
      && UploadShown(r)
      && BannerShown(r)
  {
  }

  /** Reset clears everything but the banner, from any state, and a second reset changes nothing. */
  lemma ResetClears(s: State)
    ensures var r := Reset(s);
      && r.original == None && r.originalUrl == NoUrl
      && r.compressed == None && r.compressedUrl == NoUrl
      && !r.isCompressing
      && r.error == s.error
      && r.urlsCreated == s.urlsCreated
      && Reset(r) == r
      && Inv(r)
  {
  }

  /** On the first render, clear is a no-op. */
  lemma ResetOfInitial(n: nat)
    ensures Reset(Initial(n)) == Initial(n)
  {
  }

  lemma StartCompressEffect(s: State)
    ensures s.original.None? ==> StartCompress(s) == s
    ensures s.original.Some? ==> StartCompress(s) == s.(isCompressing := true, error := NoError)
    ensures s.original.Some? ==> !CompressEnabled(StartCompress(s))
  {
  }

  lemma FinishCompressEffect(s: State, outcome: Outcome)
    ensures var r := FinishCompress(s, outcome);
      && !r.isCompressing
      && r.original == s.original && r.originalUrl == s.originalUrl
      && (outcome.Compressed? ==>
            && r.compressed == Some(outcome.file)
            && r.compressedUrl == ObjectUrl(s.urlsCreated) && !Issued(r.compressedUrl, s.urlsCreated)
            && r.error == s.error
            && !CompressEnabled(r))
      && (outcome.Rejected? ==>
            && r.error == CompressError && BannerShown(r)
            && r.compressed == s.compressed && r.compressedUrl == s.compressedUrl
            && (s.compressed.None? ==> CompressEnabled(r)))
  {
  }

  /**
   * The completion commits without checking that its original is still current: an upload,
   * a click on compress, a clear while it runs (the clear button stays enabled) and a
   * successful completion leave a result held with no original.
   */
  lemma StaleCompletionOrphansResult(s: State, f: FileRec, g: FileRec)
    requires Supported(f.mime)
    ensures var r := FinishCompress(Reset(StartCompress(Upload(s, Some(f)))), Compressed(g));
      && r.original == None
      && r.compressed == Some(g)
      && r.compressedUrl.ObjectUrl?
      && !ButtonsShown(r)
      && DownloadOf(r) == ThrowsTypeError
  {
  }

  /**
   * The same trace through the page as rendered: the picker is shown on the first render,
   * the compress button is enabled after the upload, and the clear button is shown while
   * the compression runs.
   */
  lemma StaleCompletionThroughPage(n: nat, f: FileRec, g: FileRec)
    requires Supported(f.mime)
    ensures UploadShown(Initial(n))
    ensures var up := Upload(Initial(n), Some(f));
      && ButtonsShown(up) && CompressEnabled(up)
      && ButtonsShown(StartCompress(up))
      && FinishCompress(Reset(StartCompress(up)), Compressed(g)).original == None
      && FinishCompress(Reset(StartCompress(up)), Compressed(g)).compressed == Some(g)
  {
  }

  /**
   * A result that settles after a clear and a new upload is paired with the new original:
   * the download saves the first image's compressed file under the second image's name.
   */
  lemma StaleCompletionMismatchedResult(s: State, a: FileRec, b: FileRec, g: FileRec)
    requires Supported(a.mime) && Supported(b.mime)
    ensures var r := FinishCompress(Upload(Reset(StartCompress(Upload(s, Some(a)))), Some(b)), Compressed(g));
      && r.original == Some(b)
      && r.compressed == Some(g)
      && ButtonsShown(r)
      && DownloadOf(r) == Save(DownloadPrefix + b.name, r.compressedUrl)
  {
  }

  /** Through the rendered buttons, a download click always saves, under the prefixed original name. */
  lemma RenderedDownloadSaves(s: State)
    requires ButtonsShown(s) && DownloadEnabled(s)
    ensures DownloadOf(s) == Save(DownloadPrefix + s.original.value.name, s.compressedUrl)
  {
  }

  lemma StepPreservesInv(s: State, e: Event)
    requires Inv(s)
    ensures Inv(Step(s, e))
  {
  }

  // ----- over any sequence of events -----

  lemma {:induction false} RunPreservesInv(s: State, trace: seq<Event>)
    requires Inv(s)
    ensures Inv(Run(s, trace))
    decreases |trace|
  {
    if trace != [] {
      StepPreservesInv(s, trace[0]);
      RunPreservesInv(Step(s, trace[0]), trace[1..]);
    }
  }

  /**
   * Clearing an accepted upload drops its preview URL from state without revoking it:
   * the URL was created and neither URL field holds it any more.
   */
  lemma ClearedUrlIsLeaked(s: State, f: FileRec)
    requires Supported(f.mime)
    ensures var u := Upload(s, Some(f)).originalUrl;
      var r := Reset(Upload(s, Some(f)));
      && u == ObjectUrl(s.urlsCreated)
      && Issued(u, r.urlsCreated)
      && r.originalUrl != u && r.compressedUrl != u
  {
  }

  /** Every state reachable from the first render keeps the invariant. */
  lemma ReachableInv(n: nat, trace: seq<Event>)
    ensures Inv(Run(Initial(n), trace))
  {
    RunPreservesInv(Initial(n), trace);
  }

  /**
   * Object URLs are never released: the number created only grows, by one for each
   * accepted file and each successful completion.
   */
  lemma {:induction false} RunNeverReleasesUrls(s: State, trace: seq<Event>)
    ensures Run(s, trace).urlsCreated == s.urlsCreated + CreatedBy(trace)
    decreases |trace|
  {
    if trace != [] {
      RunNeverReleasesUrls(Step(s, trace[0]), trace[1..]);
      assert trace == [trace[0]] + trace[1..];
    }
  }

  /** The number of object URLs the events of `trace` create. */
  function CreatedBy(trace: seq<Event>): nat
    decreases |trace|
  {
    if trace == [] then 0
    else
      var e := trace[0];
      var here :=
        if (e.Picked? || e.Dropped?) && Accepted(e.file) then 1
        else if e.CompressSettled? && e.outcome.Compressed? then 1
        else 0;
      here + CreatedBy(trace[1..])
  }
}
