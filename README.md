# ClarifAI capture pipeline, modelled in Dafny

ClarifAI is a browser application that photographs or uploads a handwritten
document, lets the user crop it, sends the image to a hosted model for OCR and
keeps a local history of transcriptions. This project models the
application's own logic: everything around the AI calls.

- `ecma_string.dfy` (`EcmaString`): ECMAScript `startsWith`, `indexOf` and
  `substring`, with `substring`'s clamping and argument swapping.
- `data_uri.dfy` (`DataUri`): the banner route `GET /api/image`. It checks the
  `data:image/` prefix of a generated `data:` URL (RFC 2397). It cuts out the
  MIME type and the Base64 payload, and it answers 200 with that image or 500
  with a placeholder SVG. The response is built inside the `try`, so a MIME
  type that the `Headers` class refuses (a character above U+00FF, or a NUL,
  CR or LF once surrounding HTTP whitespace is stripped) also gets the 500.
- `history.dfy` (`History`): the history log kept in local storage. A new
  record goes to the head of the list and the list is cut to 50 entries.
  `LocalStorage` is the one storage key, as a class with a mutable slot.
- `home_page.dfy` (`HomePage`): the home page as a class. Its state is
  `ocrResult`, `isLoading`, `currentImage`, `imageToCrop`, `isCameraOpen`, the
  file input's value and the toasts raised. The extraction is split at its one
  `await`. The OCR call is a parameter that either succeeds or fails.
- `history_page.dfy` (`HistoryPage`): the history page. It loads the stored
  list and sorts it in place, newest first, as an insertion sort over an
  `array`. It also holds the selected record.
- `image_uploader.dfy` (`ImageUploader`): the drop-zone uploader. It checks
  the size (at most 4 MiB) before the type (`image/`), keeps the `dragging`
  flag and ignores drags while disabled.
- `camera.dfy` (`Camera`): the camera uploader. Streams and tracks are
  objects. A ghost set records every stream ever obtained. The invariant
  `Valid()` says the camera is on exactly while a stream is held, and every
  other stream has all its tracks stopped. So at most one stream ever holds
  the device.
- `cropper.dfy` (`Cropper`): the crop dialog. Display coordinates map to
  intrinsic ones over `real`, and `getCroppedImg` is a step-by-step canvas set-up.
  Confirm, cancel and close decide what is handed on.

Points where the code does something a reader might not expect; the model
follows the code:

- The home page's file input checks neither size nor type. Only the
  drop-zone uploader does (`HomePage.Home.HandleFileChange`).
- The cropped canvas is the selection's display size times
  `devicePixelRatio`. It is not the intrinsic size of the region. For a
  1920x1080 image shown at half size with the selection (100, 100, 400, 300),
  the source region is (200, 200, 800, 600), but the canvas is 400x300 times
  the ratio (`Cropper.HalfScaleSelection`).
- Unparsable stored history is not turned into an empty history. On the
  history page the parse is unguarded and the load throws. On the home page it
  fails the whole extraction, which then shows the same toast as an OCR
  failure (`HistoryPage.HistoryView.Load`, `HomePage.Home.CompleteExtraction`).
- Record ids are clock readings, so two records made in the same millisecond
  share an id. Nothing in the model assumes ids are unique.

## Model

| member | source | states |
|---|---|---|
| `EcmaString.StartsWith` | src/app/api/image/route.ts:13 | The string starts with the prefix exactly when the prefix is no longer and agrees with it at every index. |
| `EcmaString.IndexOf` | src/app/api/image/route.ts:17-18 | The result is -1 exactly when the character does not occur; otherwise it is the index of its first occurrence. |
| `EcmaString.Substring` | src/app/api/image/route.ts:17 | In-range arguments give the slice between them, in either order; a negative end clamps to 0. |
| `EcmaString.SubstringFrom` | src/app/api/image/route.ts:18 | An in-range start gives the suffix from it; a negative start gives the whole string. |
| `DataUri.MimeType` | src/app/api/image/route.ts:17 | When the first `:` comes before the first `;`, the MIME type is exactly the text between them and holds no `;`. It is never longer than the URL. |
| `DataUri.Payload` | src/app/api/image/route.ts:18 | With a `,` in the URL the payload is the suffix that follows the first `,`; with none it is the whole URL. |
| `DataUri.Normalize` | src/app/api/image/route.ts:21-27 | The stored header value is one contiguous run of the given value, starting after its leading HTTP whitespace; everything cut off on either side is HTTP whitespace. It neither starts nor ends with whitespace, and a value without surrounding whitespace is kept unchanged. |
| `DataUri.PaddedValueTrimmed` | src/app/api/image/route.ts:21-27 | `" image/png "` is stored as `image/png`. |
| `DataUri.ErrorResponse` | src/app/api/image/route.ts:29-44 | The error path answers status 500 with `Content-Type: image/svg+xml` and the fixed placeholder SVG, sent as UTF-8 text. |
| `DataUri.Get` | src/app/api/image/route.ts:7-46 | Status 200 exactly when generation succeeded, the URL starts with `data:image/` and `Headers` accepts the extracted MIME type. A 200 response carries the normalised MIME type, the no-cache header and the payload. Any other outcome is the fixed error response. |
| `DataUri.ParseFormat` | src/app/api/image/route.ts:13-18 | Round trip: `data:<m>;base64,<p>`, with `m` an image type without `;` or `,`, passes the prefix check and parses back to exactly `m` and `p`. |
| `DataUri.GetWellFormed` | src/app/api/image/route.ts:13-27 | Serving such a URL answers 200 exactly when `Headers` accepts `m`, and then with `Content-Type` the normalised `m`, no-cache, and the body decoded from `p`; otherwise it serves the error response. |
| `DataUri.LineFeedInMimeTypeRejected` | src/app/api/image/route.ts:21-44 | A line feed inside such an `m` (not at its end) makes the response constructor throw, so the placeholder is served. |
| `DataUri.SplitMimeTypeRejected` | src/app/api/image/route.ts:7-44 | The URL `data:image/a<LF>b;base64,AA` is answered with status 500. |
| `DataUri.WideCharacterInMimeTypeRejected` | src/app/api/image/route.ts:21-44 | A character above U+00FF in `m` fails the byte-string conversion of the header, so the placeholder is served. |
| `DataUri.MimeTypeWithoutSemicolon` | src/app/api/image/route.ts:17 | With no `;` the extracted MIME type is `data:`, because `substring(5, -1)` swaps its arguments. |
| `DataUri.PayloadWithoutComma` | src/app/api/image/route.ts:18 | With no `,` the payload is the whole URL. |
| `DataUri.NonImageRejected` | src/app/api/image/route.ts:13-15 | A URL not starting with `data:image/` takes the 500 path. |
| `History.ReadBack` | src/app/page.tsx:76-77 | An absent slot reads as the empty list, and a parsed slot reads as exactly its list. Only an unparsable slot fails to read. |
| `History.Take` | src/app/page.tsx:79 | `slice(0, n)` has length min(len, n) and is a prefix of the list. |
| `History.Record` | src/app/page.tsx:76-79 | The written list has at most 50 entries, whatever was stored before. The new record is at index 0, the older entries follow in their order, and its length is min(previous + 1, 50). |
| `History.RecordEvictsTail` | src/app/page.tsx:78-79 | Recording into a full log keeps exactly the 49 newest old entries behind the new one. |
| `History.RecordAll` | src/app/page.tsx:76-79 | Recording nothing leaves the log as it was. Recording at least one entry leaves at most 50, with the last one recorded at the head. |
| `History.RecordAllKeepsNewest` | src/app/page.tsx:76-79 | Any sequence of records into a log within the cap leaves the first 50 of (records, newest first) followed by the older stored entries. |
| `History.FiftyOneRecords` | src/app/page.tsx:76-79 | Fifty-one records into an empty log leave exactly 50: the newest at the head, the first one evicted. |
| `History.RecordKeepsNewestFirst` | src/app/page.tsx:69-79 | A record stamped no earlier than the stored entries keeps a newest-first list newest first. |
| `History.LocalStorage.constructor` | src/app/page.tsx:76-79 | The `transcriptionHistory` slot starts as the given stored value, which both pages read and the home page overwrites. |
| `HomePage.NewItem` | src/app/page.tsx:69-74 | The new record's image is the submitted URL, its text is the extracted text, and its id and timestamp are the clock readings. |
| `HomePage.Home.constructor` | src/app/page.tsx:50-54 | Initial state: no result, not loading, no image, nothing to crop, camera dialog closed. |
| `HomePage.Home.StartExtraction` | src/app/page.tsx:58-62 | Loading starts, the previous result is cleared, the image is shown, and the camera dialog closes. |
| `HomePage.Home.CompleteExtraction` | src/app/page.tsx:64-91 | On success the result is set and the stored list becomes `Record(previous, newItem)`. If the call, the read-back or the write throws, nothing is written, the image is cleared and the failure toast is raised. Loading ends on every path. |
| `HomePage.Home.HandleExtraction` | src/app/page.tsx:58-92 | The whole extraction. On an OCR failure the result stays cleared. A storage failure keeps the result but clears the image. |
| `HomePage.Home.OnImageSelected` | src/app/page.tsx:94-97 | The image goes to the cropper and the camera dialog closes. |
| `HomePage.Home.HandleFileChange` | src/app/page.tsx:99-112 | The first file's URL goes to the cropper with no size or type check. No file changes nothing. The input is reset either way. |
| `HomePage.Home.SetCameraOpen` | src/app/page.tsx:151 | The camera dialog follows its open state. |
| `HomePage.Home.OnImageCropped` | src/app/page.tsx:123-128 | The cropper closes. A null or empty image starts nothing and writes nothing, because the source tests truthiness. A non-empty image is extracted: the camera dialog closes, loading ends, and the result is the OCR answer or cleared. If the extraction saves, exactly that image is recorded, shown, and no toast is raised. Otherwise storage is untouched, the image is cleared and the failure toast is raised. |
| `HistoryPage.SortNewestFirst` | src/app/history/page.tsx:27 | The in-place sort leaves the array ordered by non-increasing timestamp and a permutation of its input. |
| `HistoryPage.HistoryView.constructor` | src/app/history/page.tsx:19-20 | The list starts empty and nothing is selected. |
| `HistoryPage.HistoryView.Load` | src/app/history/page.tsx:22-30 | An absent slot leaves the list as it was. A parsed list is shown newest first as a permutation of what is stored. An unparsable slot makes the load throw. Storage and the selection are untouched. |
| `HistoryPage.HistoryView.Select` | src/app/history/page.tsx:82-86 | Clicking the card of a listed record selects exactly that record. |
| `HistoryPage.HistoryView.Back` | src/app/history/page.tsx:35 | "Back" clears the selection. |
| `HistoryPage.LoadWithNothingStored` | src/app/history/page.tsx:19-29 | With nothing stored, the loaded history is empty. |
| `ImageUploader.Validate` | src/components/visual-sage/image-uploader.tsx:19-26 | A file is accepted iff its size is at most 4 MiB and its type starts with `image/`. It is too large iff the size exceeds 4 MiB. A file failing both checks reports the size error. |
| `ImageUploader.ExactLimitPasses` | src/components/visual-sage/image-uploader.tsx:19 | 4,194,304 bytes passes the size check and 4,194,305 fails it. |
| `ImageUploader.SizeReportedFirst` | src/components/visual-sage/image-uploader.tsx:19-26 | Oversized files of a non-image type are reported as too large. |
| `ImageUploader.Uploader.constructor` | src/components/visual-sage/image-uploader.tsx:14-15 | Not dragging, no error, nothing uploaded. |
| `ImageUploader.Uploader.HandleFileChange` | src/components/visual-sage/image-uploader.tsx:17-34 | A null file changes nothing. A refused file sets its error and uploads nothing. An accepted file clears the error and is uploaded exactly once. |
| `ImageUploader.Uploader.HandleInputChange` | src/components/visual-sage/image-uploader.tsx:36-39 | Only the first chosen file is considered, and the input is reset. |
| `ImageUploader.Uploader.DragEnter` | src/components/visual-sage/image-uploader.tsx:41-46 | Sets `dragging` unless disabled, in which case nothing changes. |
| `ImageUploader.Uploader.DragLeave` | src/components/visual-sage/image-uploader.tsx:48-53 | Clears `dragging` unless disabled, in which case nothing changes. |
| `ImageUploader.Uploader.Drop` | src/components/visual-sage/image-uploader.tsx:61-68 | While disabled nothing changes. Otherwise `dragging` is cleared and only the first dropped file is validated and uploaded. |
| `ImageUploader.DropOversizedJpeg` | src/components/visual-sage/image-uploader.tsx:19-22 | A dropped 5 MB JPEG yields the too-large error and no upload. |
| `Camera.MediaStream.constructor` | src/components/ocr/camera-uploader.tsx:37-39 | A granted stream comes with the given number of fresh, live tracks. |
| `Camera.CameraUploader.constructor` | src/components/ocr/camera-uploader.tsx:16-20 | No stream, camera off, permission unknown; the invariant holds. |
| `Camera.CameraUploader.AtMostOneLiveStream` | src/components/ocr/camera-uploader.tsx:23-56 | Under the invariant, only the stream in `streamRef` can hold the device, so at most one stream is live. |
| `Camera.CameraUploader.StopCamera` | src/components/ocr/camera-uploader.tsx:23-32 | Every track of the held stream is stopped, and the stream, the video source and the on flag are cleared. With no stream held, nothing changes. |
| `Camera.CameraUploader.StartCamera` | src/components/ocr/camera-uploader.tsx:34-56 | Every stream held before is released first. Success holds a fresh live stream with permission true and the camera on. Failure holds nothing, sets permission false, turns the camera off and raises the denial toast. |
| `Camera.CameraUploader.CheckSupport` | src/components/ocr/camera-uploader.tsx:58-62 | Missing `getUserMedia` marks the camera unusable. Otherwise nothing changes, canvas size included. |
| `Camera.CameraUploader.Unmount` | src/components/ocr/camera-uploader.tsx:64-67 | Cleanup on unmount releases every stream. |
| `Camera.CameraUploader.SetDisabled` | src/components/ocr/camera-uploader.tsx:58-68 | A changed `disabled` runs the cleanup, which releases every stream. It then re-runs the support check, which sets permission to refused when `getUserMedia` is missing and otherwise keeps it. An unchanged one changes neither the stream nor the permission. The canvas is kept in both cases. |
| `Camera.CameraUploader.HandleCapture` | src/components/ocr/camera-uploader.tsx:70-86 | Capture needs the video, the canvas and a 2d context. The canvas takes the video's size, the JPEG URL is handed on once, and then the camera is released. Without them nothing is handed on and the stream is kept. |
| `Camera.CameraUploader.Buttons` | src/components/ocr/camera-uploader.tsx:113-127 | Start is shown while off and enabled unless disabled or permission is false. Capture and Stop are shown only while on. |
| `Camera.CameraUploader.ButtonsFollowSession` | src/components/ocr/camera-uploader.tsx:113-127 | Under the invariant, Capture and Stop are offered exactly while a stream is held. Start is never enabled once permission is false. |
| `Cropper.ScaleX` | src/components/ocr/image-cropper.tsx:19 | The horizontal factor times the displayed width is the natural width, and it is positive for a non-empty image. |
| `Cropper.ScaleY` | src/components/ocr/image-cropper.tsx:20 | The vertical factor times the displayed height is the natural height, and it is positive for a non-empty image. |
| `Cropper.SourceRect` | src/components/ocr/image-cropper.tsx:19-40 | Each source coordinate is the display coordinate times natural/display size on its own axis. It keeps the same fraction of the image. |
| `Cropper.SourceInsideImage` | src/components/ocr/image-cropper.tsx:35-40 | A selection inside the displayed image maps inside the intrinsic image. |
| `Cropper.UnscaledIsIdentity` | src/components/ocr/image-cropper.tsx:19-20 | At intrinsic display size the mapping is the identity. |
| `Cropper.GetCroppedImg` | src/components/ocr/image-cropper.tsx:14-50 | Without a 2d context it throws "No 2d context". Otherwise the canvas is the selection size times the pixel ratio, scaled by that ratio. It draws the mapped source region into (0, 0, width, height) and is encoded as `image/jpeg`. |
| `Cropper.NativeWidthOnlyAtMatchingRatio` | src/components/ocr/image-cropper.tsx:29-31 | The output canvas has the region's intrinsic width only when the pixel ratio equals the horizontal scale. |
| `Cropper.HalfScaleSelection` | src/components/ocr/image-cropper.tsx:19-45 | Half-size display, selection (100, 100, 400, 300): the source is (200, 200, 800, 600), and the canvas is 800 wide only at pixel ratio 2. |
| `Cropper.InitialRequest` | src/components/ocr/image-cropper.tsx:57-73 | The initial selection is requested centred, 90% wide, at 16:9, for the displayed size. |
| `Cropper.ImageCropper.constructor` | src/components/ocr/image-cropper.tsx:52-55 | No selection yet, aspect locked at 16/9, nothing handed on. |
| `Cropper.ImageCropper.OnImageLoad` | src/components/ocr/image-cropper.tsx:57-73 | The initial request is made for the loaded size, and the widget's answer becomes the selection. |
| `Cropper.ImageCropper.OnChange` | src/components/ocr/image-cropper.tsx:93 | The dragged selection is kept. |
| `Cropper.ImageCropper.OnComplete` | src/components/ocr/image-cropper.tsx:94 | The finished selection is kept. |
| `Cropper.ImageCropper.HandleCrop` | src/components/ocr/image-cropper.tsx:75-82 | With a finished selection and a mounted image, the cropped URL is handed on, or nothing if the context is missing and it throws. Otherwise the original image is handed on unchanged, whatever the image's display size. |
| `Cropper.CropBeforeLayout` | src/components/ocr/image-cropper.tsx:75-82 | Pressing "Crop and Process" with no selection, on an image mounted at display size 0, hands on exactly the original image. |
| `Cropper.ImageCropper.Cancel` | src/components/ocr/image-cropper.tsx:107 | Cancel hands on null. |
| `Cropper.ImageCropper.OpenChange` | src/components/ocr/image-cropper.tsx:85 | Closing the dialog hands on null; opening hands on nothing. |

## Left out

- AI flows (`extractTextFromImage`, `generateImage`, search suggestions): each call is a parameter of the member that awaits it. It either returns a record or throws. Prompt text and response-schema checks are not modelled.
- Browser and Node foreign calls are not modelled: `getUserMedia`, `FileReader`, canvas rasterisation (`drawImage`, JPEG encoding, smoothing quality), `JSON.parse`/`stringify` and ISO-8601 date formatting. Their results are parameters or opaque strings. Timestamps and ids are integer clock readings.
- Base64 decoding (`Buffer.from(..., 'base64')`): the response body names the text it is decoded from. Node's lenient decoder is not modelled.
- Floating point: scale factors, canvas sizes and `devicePixelRatio` are `real`. Rounding, and the canvas clamping sizes to integers, are not modelled.
- `Cropper.GetCroppedImg`: requires a displayed image of positive size, and so does the cropping branch of `Cropper.ImageCropper.HandleCrop` (the branch without a selection takes any image). A zero-sized image would give non-finite scale factors, which `real` cannot represent.
- `Cropper.ImageCropper.OnImageLoad`: the selection that `centerCrop`/`makeAspectCrop` compute is library code. It is a parameter, and only the request made of the library is stated. The widget's enforcement of the 16:9 aspect on later drags is not modelled.
- `HistoryPage.SortNewestFirst`: does not state stability. `Array.prototype.sort` is stable; the model proves only order and permutation.
- `Camera.CameraUploader.HandleCapture`: the JPEG `data:` URL is an opaque parameter. Its relation to the video frame is not stated.
- `Camera.CameraUploader.StartCamera`: the video element is taken to be mounted, so `srcObject` is always updated. Overlapping starts during the awaited `getUserMedia` are not modelled.
- Concurrency: each handler is one atomic step. React's batched state updates and several tabs writing storage (last writer wins) are not modelled. The only exception is that extraction is split at its `await`.
- `handleDragOver` only prevents the browser default and changes no state, so it has no member.
- The drop-zone uploader's `handleInputChange` does not itself check `disabled`; the disabled `<input>` element keeps the browser from firing it. The model follows the handler.
- Presentation: page layout, result cards, gallery, about/contact/privacy pages and the service-worker registration in the layout.
- Clarification word replacement: no code for it appears in the modelled files.
