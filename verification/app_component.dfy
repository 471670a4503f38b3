/**
 * The image workbench component: its six pieces of state as fields that the event handlers
 * update one setter at a time. Every state-changing handler is proved to move the fields
 * exactly as the matching transition of module AppState says, and to keep AppState.Inv.
 */
module AppComponent {
  import opened Wrappers
  import opened Media
  import opened AppState

  class Workbench {
    var original: Option<FileRec>
    var originalUrl: Url
    var compressed: Option<FileRec>
    var compressedUrl: Url
    var isCompressing: bool
    var error: Banner
    /** The browser's count of object URLs created so far; the next one created is fresh. */
    var urlsCreated: nat

    /** The fields as an AppState.State value. */
    function Snapshot(): State
      reads this
    {
      State(original, originalUrl, compressed, compressedUrl, isCompressing, error, urlsCreated)
    }

    ghost predicate Valid()
      reads this
    {
      Inv(Snapshot())
    }

    /** The first render: every useState initial value. */
    constructor (urlsCreatedBefore: nat)
      ensures Valid()
      ensures Snapshot() == Initial(urlsCreatedBefore)
    {
      original := None;
      originalUrl := NoUrl;
      compressed := None;
      compressedUrl := NoUrl;
      isCompressing := false;
      error := NoError;
      urlsCreated := urlsCreatedBefore;
    }

    /** `URL.createObjectURL`: a URL no earlier call returned. */
    method CreateObjectUrl() returns (u: Url)
      modifies this`urlsCreated
      ensures u == ObjectUrl(old(urlsCreated)) && urlsCreated == old(urlsCreated) + 1
    {
      u := ObjectUrl(urlsCreated);
      urlsCreated := urlsCreated + 1;
    }

    method ResetState()
      requires Valid()
      modifies this
      ensures Valid()
      ensures Snapshot() == Reset(old(Snapshot()))
    {
      original := None;
      originalUrl := NoUrl;
      compressed := None;
      compressedUrl := NoUrl;
      isCompressing := false;
    }

    /** The picker's change handler; `file` is the first selected file, if any. */
    method HandleImageUpload(file: Option<FileRec>)
      requires Valid()
      modifies this
      ensures Valid()
      ensures Snapshot() == Upload(old(Snapshot()), file)
    {
      if file.Some? && Supported(file.value.mime) {
        original := file;
        originalUrl := CreateObjectUrl();
        compressed := None;
        compressedUrl := NoUrl;
        error := NoError;
      } else {
        error := UploadError;
        ResetState();
      }
    }

    /** The drop zone's handler; `file` is the first dropped file, if any. */
    method OnDrop(file: Option<FileRec>)
      requires Valid()
      modifies this
      ensures Valid()
      ensures Snapshot() == Drop(old(Snapshot()), file)
    {
      if file.Some? {
        HandleImageUpload(file);
      }
    }

    /**
     * The compress handler up to its await. `input` is the file handed to the compressor,
     * or None when the handler returns early.
     */
    method StartCompress() returns (input: Option<FileRec>)
      requires Valid()
      modifies this
      ensures Valid()
      ensures Snapshot() == AppState.StartCompress(old(Snapshot()))
      ensures input == old(original)
    {
      input := original;
      if original.None? {
        return;
      }
      isCompressing := true;
      error := NoError;
    }

    /** The compress handler after its await, with the promise's outcome chosen by the caller. */
    method FinishCompress(outcome: Outcome)
      requires Valid()
      modifies this
      ensures Valid()
      ensures Snapshot() == AppState.FinishCompress(old(Snapshot()), outcome)
    {
      match outcome {
        case Compressed(f) =>
          compressed := Some(f);
          compressedUrl := CreateObjectUrl();
        case Rejected =>
          error := CompressError;
      }
      isCompressing := false;
    }

    /** The download handler: the guard and the file name; the anchor element and its click are browser I/O. */
    method HandleDownload() returns (d: Download)
      ensures d == DownloadOf(Snapshot())
    {
      if compressed.None? {
        return Skipped;
      }
      if original.None? {
        return ThrowsTypeError;
      }
      d := Save(DownloadPrefix + original.value.name, compressedUrl);
    }
  }
}
