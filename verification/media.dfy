/**
 * The values the image workbench holds: files chosen by the user or returned by the
 * compressor, the object URLs that preview them, and the error banner.
 */
module Media {

  /** A browser `File`: its name, its MIME type and its size in bytes. The bytes themselves are not modelled. */
  datatype FileRec = FileRec(name: string, mime: string, size: nat)

  /**
   * An object URL held in component state. `NoUrl` is the empty string the state starts with
   * and is reset to; `ObjectUrl(n)` is the n-th URL the browser created in this session.
   */
  datatype Url = NoUrl | ObjectUrl(id: nat)

  /** The error banner: empty, the unsupported-file message, or the compression-failure message. */
  datatype Banner = NoError | UploadError | CompressError

  const Jpeg: string := "image/jpeg"
  const Png: string := "image/png"
  const Webp: string := "image/webp"

  /** The MIME types the upload handler accepts; the comparison is exact (no case folding, no parameters). */
  predicate Supported(mime: string)
    ensures Supported(mime) ==> |mime| > 6 && mime[..6] == "image/"
  {
    mime == Jpeg || mime == Png || mime == Webp
  }

  /** The text shown in the banner; the empty banner is the empty string, which renders nothing. */
  function Message(b: Banner): (text: string)
    ensures text == "" <==> b == NoError
  {
    match b
    case NoError => ""
    case UploadError => "JPG, PNG, WebP形式の画像ファイルを選択してください。"
    case CompressError => "画像の圧縮中にエラーが発生しました。"
  }
}
