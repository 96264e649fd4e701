# Lens & Lyric: caption workflow and upload validation

This project models the two parts of the Lens & Lyric single-page app that hold logic.

- **The upload control's change handler** (`components/FileUpload.tsx`). It takes the first chosen file. It rejects a file over 20 MiB, then a file whose MIME type starts with neither `video/` nor `image/`. For an accepted file it builds a `MediaFile` descriptor: the file, its preview URL, the kind (`video` when the type starts with `video/`, otherwise `image`), the base64 payload cut from the browser's data URL with `split(',')[1]`, and the MIME type unchanged. Module `FileUpload` holds this as pure functions. It models JavaScript's `split` on one separator together with its inverse `Join`. It also builds the base64 data URL of section 3 of RFC 2397, so the payload extraction can be checked against it.
- **The four-state caption workflow** (`App.tsx`). There are four state cells: `appState`, `media`, `result` and `error`. Three handlers overwrite them: file select, generate and reset. Module `AppFlow` has a class `App` with those four fields. Generate is split at its `await` into `StartGenerate` and the two completions, `CompleteSuccess` and `CompleteFailure`. Each method's postcondition gives the new fields. It also ties the new state to the pure step function `Apply` over a `Snapshot` of the four cells. Lemmas about `Apply` state the workflow's invariants:
  - over every sequence of handler calls (`RunEnabled`);
  - over every sequence the rendered page offers (`Offered`, `RunOffered`).

The service call is an abstract outcome: `Delivered(response)` or `Failed`. Module `Types` holds the records and the state enumeration of `types.ts`.

The model follows the code as written; in particular:
- A file of size 0 is accepted. Only the upper bound is checked.
- The failure branch does not clear `result`.
- The success branch does not clear `error`. The start step already cleared it.
- Object URLs are never revoked.
- A file read that fails or is aborted has no handler: nothing is passed on and nothing is shown (`NotLoaded`).
- A data URL without a comma gives a descriptor with no payload. This is the runtime `undefined` from `split(',')[1]`, although the TypeScript type claims a string.
- Reset is offered only while media is held, because the whole panel holding the buttons renders only then. Reset from SUCCESS also needs a result to be shown.

## Model

| member | source | states |
|---|---|---|
| FileUpload.HandleFileChange | components/FileUpload.tsx:13-49 | No file gives no descriptor. A file is accepted iff size ≤ 20971520, its type starts with `video/` or `image/`, and the read delivers a data URL. A file passing both guards whose read never loads passes on nothing (`NotLoaded`). An oversize file is rejected as too large whatever its type. An unsupported-type rejection happens exactly for a file within the size limit that has neither prefix. The accepted descriptor carries the chosen file, the preview URL and the MIME type unchanged, plus the data-URL payload. Its kind is video iff the type starts with `video/`, and image implies an `image/` type. |
| FileUpload.SizeBoundaries | components/FileUpload.tsx:18-21 | With a valid type, sizes 0 and exactly 20 MiB are accepted and 20 MiB + 1 is rejected as too large. |
| FileUpload.AcceptedPayloadRoundTrip | components/FileUpload.tsx:31-43 | An acceptable file read as a base64 data URL of its own type yields exactly the descriptor holding that file, preview URL, derived kind, payload and MIME type. |
| FileUpload.Split | components/FileUpload.tsx:35 | `split` on one character gives at least one segment, and no segment contains the separator. |
| FileUpload.SplitThenJoin | components/FileUpload.tsx:35 | Joining the segments of `split` with the separator gives back the original string. |
| FileUpload.JoinThenSplit | components/FileUpload.tsx:35 | Splitting a join of separator-free segments gives back exactly those segments. |
| FileUpload.SplitWithoutSeparator | components/FileUpload.tsx:35 | A string without the separator splits into itself alone. |
| FileUpload.SplitAfterSegment | components/FileUpload.tsx:35 | A separator-free head followed by the separator splits into the head, then the segments of the rest. |
| FileUpload.SplitFindsSeparator | components/FileUpload.tsx:35 | A string holding the separator splits into at least two segments. |
| FileUpload.SplitHasSecondSegmentIff | components/FileUpload.tsx:35 | `split` gives a second segment exactly when the string holds the separator. |
| FileUpload.ExtractPayload | components/FileUpload.tsx:35 | `result.split(',')[1]`: absent exactly when the data URL has no comma; a present payload holds no comma. |
| FileUpload.PayloadIsSecondSegment | components/FileUpload.tsx:35 | The payload is the text between the first comma and the second comma, or the end of the URL. |
| FileUpload.DataUrlRoundTrip | components/FileUpload.tsx:35 | For `"data:" + mime + ";base64," + p` with a comma-free MIME type and base64 text `p`, the extracted payload is exactly `p`. |
| AppFlow.Apply | App.tsx:14-43 | The step of the three handlers, with generate split at its `await`. Only select and reset replace the media, and both return to IDLE with no result or error. Generate and its completions keep the media. Only generate enters ANALYZING. The only error text ever written is the fixed failure message. |
| AppFlow.RequestFor | App.tsx:28 | The service arguments `(media.base64, media.mimeType)`: a request exists exactly when media is held, and carries that media's payload and MIME type. |
| AppFlow.Offered | App.tsx:81-174 | The JSX conditions as a predicate. The upload control shows only without media (line 81). Generate shows in IDLE and ERROR with media (lines 117, 142-150). Reset shows in IDLE, ERROR, and SUCCESS with a result (lines 105, 151, 161-166). Completion happens only from ANALYZING. While ANALYZING neither generate nor reset is offered, and generate is never offered in SUCCESS. |
| AppFlow.App.constructor | App.tsx:9-12 | Starts in IDLE with no media, result or error. This initial state satisfies the handler invariant. |
| AppFlow.App.HandleFileSelect | App.tsx:14-19 | Stores exactly the selected descriptor, clears result and error, and sets IDLE. The handler invariant is kept. |
| AppFlow.App.StartGenerate | App.tsx:21-28 | Without media, nothing changes and no request is issued. With media, it sets ANALYZING, clears the error and keeps media and result. It returns exactly the media's payload and MIME type as the service request. |
| AppFlow.App.CompleteSuccess | App.tsx:28-30 | From ANALYZING, it stores exactly the returned response and sets SUCCESS. Media is unchanged and the error stays cleared. |
| AppFlow.App.CompleteFailure | App.tsx:31-34 | From ANALYZING, it sets ERROR with the fixed failure message. Media and result are left untouched. |
| AppFlow.App.Reset | App.tsx:38-43 | Clears media, result and error and sets IDLE. The handler invariant is kept. |
| AppFlow.SelectStoresDescriptor | App.tsx:14-19 | From any state, selecting gives IDLE holding exactly that media with no result or error. The next request would carry that media's payload and type. |
| AppFlow.GenerateWithoutMediaIsNoOp | App.tsx:21-22 | Generate without media leaves all four cells unchanged and issues no request. |
| AppFlow.GenerateStartSendsDescriptor | App.tsx:21-28 | Generate with media gives ANALYZING with the same media and result and no error. The request is the media's payload and MIME type. |
| AppFlow.ResetIsIdempotent | App.tsx:38-43 | Reset from any state gives the initial state. Resetting twice is the same as resetting once. |
| AppFlow.RetryResendsSameRequest | App.tsx:21-34 | A failed attempt ends in ERROR with the fixed message and the same media. From there, retry is offered and sends the same payload and MIME type as before. |
| AppFlow.StepKeepsHandlerInvariant | App.tsx:14-43 | Every handler step keeps the handler invariant, with completion taken only from ANALYZING. |
| AppFlow.StepKeepsGatedInvariant | App.tsx:81-174 | Every step the page offers keeps the gated invariant. |
| AppFlow.RunKeepsHandlerInvariant | App.tsx:14-43 | Over any sequence of handler calls, two facts hold. A state other than IDLE has media. An error, always the fixed message, is held exactly in ERROR. |
| AppFlow.RunKeepsGatedInvariant | App.tsx:81-174 | Over any sequence of offered actions, the handler invariant holds. In addition, a result is held exactly in SUCCESS. |
| AppFlow.OfferedRunIsEnabled | App.tsx:117-174 | Every sequence of offered actions is also a valid sequence of handler calls. |
| AppFlow.NoSecondGenerationWhileAnalyzing | App.tsx:117-158 | In a state reached by offered actions, the only event possible during ANALYZING is the completion of the pending call. No second generation can start. |
| AppFlow.UngatedRetryKeepsStaleResult | App.tsx:28-34 | Without the page's gating, the result-iff-SUCCESS fact fails. Generating again from SUCCESS and failing leaves ERROR holding the old result. |
| AppFlow.UploadedPayloadReachesService | App.tsx:14-28 | An acceptable file, read as a base64 data URL and selected, makes the next generate send exactly the file's payload and MIME type. |

## Left out

- services/geminiService.ts is not part of this model. This covers the network call, the API key lookup, the prompt and schema constants and `JSON.parse`. The service is an abstract outcome: a `CaptionResponse` or a failure. The response is not checked against the schema. In particular, a body that parses to `null` would set SUCCESS with no result, a state in which the page shows no control; `Delivered` always carries a response, so the model does not reach it.
- The browser's `FileReader` and its base64 encoding are left out. The data URL is an input string. `DataUrl` builds it only to state the round trip.
- `URL.createObjectURL` is left out. The preview URL is an opaque input string. The source never revokes it, so no release is modelled.
- Interleavings of the async completions with other events are not modelled. The service call's completion is a sequential step taken only from ANALYZING, where the page offers no action. The file read's completion is treated as part of the change event (the `loaded` argument of `FileUpload.HandleFileChange`), and select is offered only without media. In the source, the read's load callback outlives the upload control, so a read that finishes late could select media during ANALYZING and offer generate again while a call is pending. `AppFlow.NoSecondGenerationWhileAnalyzing` holds only under this sequential treatment.
- Rendering is left out: JSX, styling, icons, `alert`, `console.error`, and the clearing of the file input's value after a change. The result card component is not part of this model.
- FileUpload.DataUrlRoundTrip, FileUpload.AcceptedPayloadRoundTrip, AppFlow.UploadedPayloadReachesService: assume the MIME type holds no comma. A type carrying comma-separated parameters would move the cut.
