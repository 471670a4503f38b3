# Image workbench state machine

A Dafny model of the `App` component of a browser image-compression tool. The user picks or
drops a JPEG, PNG or WebP image. The component hands it to an external compressor, shows
the original and the compressed image side by side with their sizes and the reduction, and
offers download and clear buttons. The model covers the six pieces of component state,
the handlers that move them through upload, compress, result and reset, the button gating,
and the guard branches of the two display values.

Modules:

- `Wrappers` (wrappers.dfy): `Option`, the model of a state slot that is `null` or a value.
- `Media` (media.dfy): `FileRec` (name, MIME type, size), `Url` (the empty string or the n-th
  object URL created in the session), `Banner` (the error message), and the accepted-type test.
- `AppState` (app_state.dfy): the state as a value, one transition function per handler,
  the rendered/enabled conditions of the page, the event type with `Step` and `Run`, the
  invariant `Inv`, and the lemmas.
- `AppComponent` (app_component.dfy): class `Workbench`. Its fields are the component state.
  Its methods update them one setter at a time. Each state-changing handler is proved to
  produce exactly the state the matching `AppState` function gives, and to keep `Inv`.
  `CreateObjectUrl` is a helper that only advances the URL counter. `HandleDownload`
  changes no state, because it has no `modifies` clause.
- `SizeFormat` (size_format.dfy): the unit choice and zero case of `formatBytes`, and
  `reductionPercentage`.

The compress handler awaits the compressor once. It is modelled as two events:
`StartCompress` runs up to the await, and `FinishCompress` runs after it. The compressor's
outcome, a compressed file or a rejection, is an argument chosen by the caller.
`URL.createObjectURL` is modelled by a counter of URLs created so far. Each call returns the
next number, so every new URL is fresh.

The model keeps these behaviours of the code as they are:

- Clearing keeps the error banner: `resetState` never calls `setError`. A version that
  emptied the banner on clear would add `setError('')` there.
- A completion is committed whatever happened while it ran: nothing compares the image
  it started from with the current original. `AppState.StaleCompletionOrphansResult` and
  `AppState.StaleCompletionThroughPage` show a clear during compression leaving a
  compressed image with no original. `AppState.StaleCompletionMismatchedResult` shows a
  clear and a new upload pairing the old result with the new image. A guarded version
  would tag each compression and drop a completion whose tag is no longer current.
- Object URLs are never revoked: there is no `URL.revokeObjectURL` call.
  `AppState.RunNeverReleasesUrls` counts the URLs created, and `AppState.ClearedUrlIsLeaked`
  shows a cleared preview URL that is dropped from state without being revoked. A version that released them
  would revoke the old URL whenever an image is replaced or cleared.
- The compress handler itself guards only on a missing original. Only the disabled button
  prevents a second compression while one is running.
- A picker change with no file shows the upload error, as an unsupported type does.

## Model

| member | source | states |
|---|---|---|
| `AppComponent.Workbench.constructor` | src/App.js:5-10 | the first render holds no images, empty URLs, not compressing, no error |
| `AppComponent.Workbench.CreateObjectUrl` | src/App.js:16 | creating an object URL returns one that no earlier call returned |
| `AppComponent.Workbench.HandleImageUpload` | src/App.js:12-24 | the new state is `Upload` of the old one and the invariant is kept |
| `AppComponent.Workbench.ResetState` | src/App.js:60-66 | the new state is `Reset` of the old one and the invariant is kept |
| `AppComponent.Workbench.OnDrop` | src/App.js:72-78 | the new state is `Drop` of the old one and the invariant is kept |
| `AppComponent.Workbench.StartCompress` | src/App.js:26-30 | the new state is `StartCompress` of the old one; the file handed to the compressor is the current original |
| `AppComponent.Workbench.FinishCompress` | src/App.js:38-47 | the new state is `FinishCompress` of the old one and the outcome, and the invariant is kept |
| `AppComponent.Workbench.HandleDownload` | src/App.js:50-58 | the download is the one `DownloadOf` gives for the current state, and no state changes |
| `AppState.Initial` | src/App.js:5-10 | the first-render state satisfies the invariant, shows the picker and not the buttons or the banner, and is not busy |
| `AppState.Accepted` | src/App.js:13-14 | a missing file is never accepted, and an accepted file has a supported type |
| `Media.Supported` | src/App.js:14 | a supported type starts with "image/"; the test is exact string equality with "image/jpeg", "image/png" or "image/webp", with no case folding or parameters |
| `SizeFormat.UnitName` | src/App.js:84-86 | the name is "undefined" exactly from index 4 on; indices 0 to 3 give "Bytes", "KB", "MB" and "GB" |
| `AppState.BannerShown` | src/App.js:99 | the error banner is rendered exactly when there is an error |
| `AppState.ClearedUrlIsLeaked` | src/App.js:60-66 | clearing an accepted upload leaves its created preview URL held by neither URL field, with nothing that revokes it |
| `AppState.Reset` | src/App.js:60-66 | clearing leaves no original, no result and not busy, in a state that satisfies the invariant, with the picker shown, the buttons hidden, and the banner and the URL count kept |
| `AppState.Upload` | src/App.js:12-24 | upload keeps the invariant; an accepted file shows the buttons with download disabled, clears the banner, and enables compress unless a compression is running; anything else shows the picker again with the upload banner and not busy |
| `AppState.Drop` | src/App.js:72-78 | a drop with no file changes nothing; a drop with a file has exactly the effect of the upload handler on it |
| `AppState.StartCompress` | src/App.js:26-30 | starting keeps the invariant and both images; with no original it is a no-op; otherwise it sets busy, clears the banner and disables the compress button |
| `AppState.FinishCompress` | src/App.js:38-47 | completion keeps the invariant and the original and always clears busy; success enables download and leaves compress disabled; failure sets the compression banner and keeps the previous result |
| `AppState.CompressEnabled` | src/App.js:143 | while compress is enabled a download click does nothing; when not busy, exactly one of compress and download is enabled |
| `AppState.DownloadEnabled` | src/App.js:146 | the download button is enabled exactly when a click on it does something |
| `AppState.ButtonsShown` | src/App.js:117 | the buttons are rendered exactly when the picker and drop zone are not |
| `AppState.UploadShown` | src/App.js:101 | under the invariant, the picker is rendered exactly when there is no original preview URL |
| `AppState.UploadAccepts` | src/App.js:14-19 | a JPEG, PNG or WebP file becomes the original with a fresh URL; the result and its URL and the error are cleared; the busy flag is untouched |
| `AppState.UploadRejects` | src/App.js:20-23 | a missing or unsupported file sets the upload error, shows the banner and the picker, and clears both images, both URLs and the busy flag; a later clear keeps that error |
| `AppState.ResetClears` | src/App.js:60-66 | clearing empties both images, both URLs and the busy flag, keeps the error, is idempotent, shows the picker again and leaves a state that satisfies the invariant |
| `AppState.ResetOfInitial` | src/App.js:60-66 | clearing on the first render changes nothing |
| `AppState.StartCompressEffect` | src/App.js:27-30 | with no original, starting is a no-op; otherwise it sets busy, clears the error, changes nothing else, and disables the compress button |
| `AppState.FinishCompressEffect` | src/App.js:38-47 | completion always clears busy and keeps the original; success stores the result with a fresh URL and disables the button; failure sets the compression error and shows the banner, keeps the previous result, and re-enables the button when there is none |
| `AppState.StaleCompletionOrphansResult` | src/App.js:39-41 | upload, compress, clear, then a successful completion leave a compressed image with no original; the buttons are hidden and a download would dereference null |
| `AppState.StaleCompletionThroughPage` | src/App.js:101-149 | the orphaning trace runs through the page as rendered: the picker is shown first, compress is enabled after the upload, and clear is shown while compression runs |
| `AppState.StaleCompletionMismatchedResult` | src/App.js:39-41 | upload A, compress, clear, upload B, then A's success leave B as the original with A's result, and the download saves it under B's name |
| `AppState.DownloadOf` | src/App.js:50-54 | no compressed image means no download; a compressed image without an original is the null-dereference case; otherwise the save uses the compressed URL and the name "compressed_" followed by the original's name |
| `AppState.RenderedDownloadSaves` | src/App.js:117-146 | when the download button is rendered and enabled, a click always saves under the prefixed original name |
| `AppState.StepPreservesInv` | src/App.js:12-78 | every handler keeps the invariant: each image is held with its URL, busy implies an original, and the held URLs are created and distinct |
| `AppState.RunPreservesInv` | src/App.js:12-78 | the invariant holds after any sequence of picks, drops, clears, compress clicks, completions and downloads |
| `AppState.ReachableInv` | src/App.js:5-10 | every state reachable from the first render satisfies the invariant |
| `AppState.RunNeverReleasesUrls` | src/App.js:16 | over any sequence of events, the count of created URLs only grows, by exactly one per accepted file and per successful completion |
| `Media.Message` | src/App.js:21-43 | the banner text is empty, which line 99 renders as nothing, exactly when there is no error |
| `SizeFormat.UnitIndex` | src/App.js:85 | the unit index is the largest i with 1024^i not above the size |
| `SizeFormat.FormatBytes` | src/App.js:80-87 | zero bytes is exactly the literal "0 Bytes"; for other sizes more than 100 decimals is exactly the RangeError case; otherwise the size is in Bytes, KB, MB or GB by power of 1024, or "undefined" at 1024^4 and above, and a negative decimals count is taken as 0 |
| `SizeFormat.FormatBytesExamples` | src/App.js:80-87 | 0 gives "0 Bytes", 1536 is in KB and 1048576 in MB, each with two decimals; 101 decimals throws for a non-zero size but not for zero |
| `SizeFormat.ReductionPercentage` | src/App.js:89-90 | the value is 0 unless both images are held; with an empty original it is not finite; otherwise it is the saving as a percentage of the original, at most 100, and non-negative exactly when the result is no larger |
| `SizeFormat.SixtyPercentReduction` | src/App.js:89-90 | a 1,000,000-byte original compressed to 400,000 bytes is a 60 percent reduction |

## Left out

- Rendering and styling (src/App.js:92-157) are left out, except for the conditions under which the picker and the buttons are rendered and enabled.
- The compressor call and its options (src/App.js:32-39) are left out. The compressor is a foreign library; only its outcome enters the model, as the argument of `FinishCompress`.
- Asynchronous scheduling is left out. The two halves of the compress handler are separate events. Any interleaving of them with other events is covered by `Run`.
- React's batching of setter calls is not modelled. No handler reads state after setting it, so the final state is the same.
- `console.error` on failure (src/App.js:44) is diagnostics output and is left out.
- The creation, click and removal of the download anchor (src/App.js:52-57) are browser I/O. Only the guard, the URL and the file name are kept.
- The bytes of the images are not modelled. A file is its name, type and size.
- `SizeFormat.FormatBytes`: does not model the printed numeral (the size divided by the power of 1024, rounded with `toFixed` and reparsed), because it is floating-point arithmetic.
- `SizeFormat.UnitIndex`: takes the quotient of logarithms as exact. A floating-point quotient that rounds just below an integer at an exact power of 1024 is not modelled.
- `SizeFormat.ReductionPercentage`: gives the exact rational value instead of the `toFixed(1)` string. It does not distinguish NaN from an infinity for an empty original.
