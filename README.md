# sfPdfEditor save coordinator and viewer properties, in Dafny

sfPdfEditor is a set of Salesforce Lightning Web Components that lets a user edit a PDF in
the browser and save it back to Salesforce. This project models three parts of it:

- **The save coordinator** of the `pdfSelector` component (`pdf_selector.dfy`):
  - `handleSave` routes a base64 document either to a single `savePdfToSalesforce` call or to
    the chunked `uploadPdfToSalesforceAsync` loop.
  - That loop cuts the text into `CHUNK_SIZE` (3 MiB) pieces and sends them one by one with
    `savePdfChunk`. Once an answer is truthy, it becomes the document id and is passed to every later call.
  - Along the way the component writes console lines, shows toasts and sets `saveStatus`.
- **The shared helpers** of `utils.js` (`utils.dfy`): the debug-level filter of `logMessage` and
  the records built by `showSuccessToast`, `showErrorToast` and `dispatchError`.
- **The `pdfViewer` component** (`pdf_viewer.dfy`):
  - the normalising `debugLevel` property;
  - the `pdfId` property, whose setter starts a load;
  - the guard in `loadPdfFromSalesforce` that keeps empty content away from the editor.

Both components are classes. Their fields are the component's fields, plus a `trace`
(`effects` in the viewer) that records, in order, everything the component writes, shows or
calls. Apex answers are inputs: `rs[i]` is the answer to the (i+1)-th call.

What is proved about the coordinator is in `pdf_selector_proofs.dfy`:
- `handleSave` has three routes:
  - empty data: no call and status failure;
  - data of at most 3 MiB: exactly one call;
  - larger data: at least two chunks.
- The chunks are the consecutive substrings the loop cuts, and they concatenate back to the
  input.
- `isLastChunk` is true on the final chunk only.
- The first chunk is sent without an id. Every chunk sent after the first truthy answer carries that answer as its id.
- A rejected chunk stops the loop and is named in the one error toast.
- The debug level changes nothing but the console.

## Model

| member | source | states |
|---|---|---|
| Utils.LevelOf | force-app/main/default/lwc/utils/utils.js:35 | each of the names 'info', 'warning', 'error' is recognised exactly when it is spelled so; any other string is kept as an unrecognised level |
| Utils.EmittedLevels | force-app/main/default/lwc/utils/utils.js:33-34 | the levels each debug level lets through (1 errors, 2 info and warnings, 3 all, anything else none) are recognised levels |
| Utils.LogMessage | force-app/main/default/lwc/utils/utils.js:39-55 | a line is written iff the level is among those the debug level lets through; it goes to console.log/warn/error with the prefix [INFO]/[WARN]/[ERROR] and carries the message and arguments unchanged |
| Utils.LogMessageOfName | force-app/main/default/lwc/utils/utils.js:40-45 | for a level given by its name, a line is written exactly when the debug level is 3 and the name is one of the three, 2 and the name is 'info' or 'warning', or 1 and the name is 'error' |
| Utils.ShowSuccessToast | force-app/main/default/lwc/utils/utils.js:63-71 | the toast has variant success and the given title and message |
| Utils.ShowErrorToast | force-app/main/default/lwc/utils/utils.js:79-87 | the toast has variant error and the given title and message |
| Utils.DispatchError | force-app/main/default/lwc/utils/utils.js:95-100 | the event is named 'error' and carries the message; omitted details become null |
| PdfSelector.Substring | force-app/main/default/lwc/pdfSelector/pdfSelector.js:165 | substring(start, end) clips both ends to the length and returns the characters from start on |
| PdfSelector.PdfSelector.constructor | force-app/main/default/lwc/pdfSelector/pdfSelector.js:49-60 | a new component has debug level 3, saveStatus null and an empty trace |
| PdfSelector.PdfSelector.HandleSave | force-app/main/default/lwc/pdfSelector/pdfSelector.js:88-115 | the trace grows by exactly what Save describes for the data and answers, and saveStatus becomes Save's status; the debug level is kept |
| PdfSelector.PdfSelector.UploadPdfToSalesforce | force-app/main/default/lwc/pdfSelector/pdfSelector.js:120-149 | the trace grows by SingleShot's effects and saveStatus becomes SingleShot's status, which keeps the incoming status on both early returns |
| PdfSelector.PdfSelector.UploadPdfToSalesforceAsync | force-app/main/default/lwc/pdfSelector/pdfSelector.js:154-201 | the loop's trace is ChunkLoop from offset 0, chunk index 0 and a null id, followed by the success toast; saveStatus ends as success |
| PdfSelector.PdfSelector.SendChunk | force-app/main/default/lwc/pdfSelector/pdfSelector.js:170-192 | one pass of the loop: ChunkStep's effects; the id becomes the answer while it was falsy and is kept otherwise; the loop is told to stop iff the call was rejected, and only then is saveStatus set to failure |
| PdfSelectorProofs.StepEffects | force-app/main/default/lwc/pdfSelector/pdfSelector.js:170-192 | each pass makes exactly one savePdfChunk call with the chunk, the flag and the current id, and shows a toast only when the chunk is rejected, naming its index |
| PdfSelectorProofs.ChunksShape | force-app/main/default/lwc/pdfSelector/pdfSelector.js:164-168 | the chunks concatenate to the text; all but the last have CHUNK_SIZE characters and the last has between 1 and CHUNK_SIZE; there are as many as loop passes; there are none exactly for empty text |
| PdfSelectorProofs.ChunkCount | force-app/main/default/lwc/pdfSelector/pdfSelector.js:164-168 | the number of passes is the length divided by the chunk size, rounded up; it is 0 for empty text and at least 2 above the chunk size |
| PdfSelectorProofs.RemainingBounds | force-app/main/default/lwc/pdfSelector/pdfSelector.js:164-167 | the passes left from an offset are the rest of the text divided by the chunk size, rounded up |
| PdfSelectorProofs.ChunkIsSubstring | force-app/main/default/lwc/pdfSelector/pdfSelector.js:165-167 | chunk k + 1 is substring(k·C, (k+1)·C) |
| PdfSelectorProofs.FirstErr | force-app/main/default/lwc/pdfSelector/pdfSelector.js:187-191 | the first rejection lies within the range searched |
| PdfSelectorProofs.FirstErrSpec | force-app/main/default/lwc/pdfSelector/pdfSelector.js:187-191 | every answer before the first rejection is accepted, and a rejection is found when there is one |
| PdfSelectorProofs.LoopCalls | force-app/main/default/lwc/pdfSelector/pdfSelector.js:164-193 | from any loop state: one call per chunk, in order, until the first rejected chunk; chunk j is sent with isLastChunk exactly when it is the final chunk and with the id threaded through the earlier answers |
| PdfSelectorProofs.CallsWhenRejected | force-app/main/default/lwc/pdfSelector/pdfSelector.js:187-191 | a rejected first pass gives exactly one call |
| PdfSelectorProofs.CallsWhenAccepted | force-app/main/default/lwc/pdfSelector/pdfSelector.js:174-186 | an accepted pass puts its call in front of the rest of the loop's calls |
| PdfSelectorProofs.LoopToasts | force-app/main/default/lwc/pdfSelector/pdfSelector.js:164-193 | from any loop state: no toast when all chunks are accepted, otherwise exactly one error toast naming the first rejected chunk and its error |
| PdfSelectorProofs.ToastsWhenRejected | force-app/main/default/lwc/pdfSelector/pdfSelector.js:187-191 | a rejected pass shows one error toast naming that chunk |
| PdfSelectorProofs.ToastsWhenAccepted | force-app/main/default/lwc/pdfSelector/pdfSelector.js:174-186 | an accepted pass adds no toast to what follows |
| PdfSelectorProofs.DocIdKept | force-app/main/default/lwc/pdfSelector/pdfSelector.js:181-184 | a truthy id is never changed by later answers |
| PdfSelectorProofs.DocIdStillFalsy | force-app/main/default/lwc/pdfSelector/pdfSelector.js:181-184 | the id stays falsy while no answer is a truthy value |
| PdfSelectorProofs.DocIdCaptured | force-app/main/default/lwc/pdfSelector/pdfSelector.js:181-184 | after the first truthy answer the id is that answer |
| PdfSelectorProofs.SentAtFailure | force-app/main/default/lwc/pdfSelector/pdfSelector.js:187-191 | a rejection of chunk f + 1 after accepted chunks means exactly f + 1 calls |
| PdfSelectorProofs.SentAllAccepted | force-app/main/default/lwc/pdfSelector/pdfSelector.js:164-193 | when all answers are accepted every chunk is sent |
| PdfSelectorProofs.SentBound | force-app/main/default/lwc/pdfSelector/pdfSelector.js:164-193 | never more calls than chunks, and at least one for non-empty text |
| PdfSelectorProofs.SaveEmpty | force-app/main/default/lwc/pdfSelector/pdfSelector.js:89-98 | null or empty data: no Apex call, the 'Empty PDF data.' error toast, status failure |
| PdfSelectorProofs.SingleShotRefusesEmpty | force-app/main/default/lwc/pdfSelector/pdfSelector.js:125-127 | empty data given to the single upload: no call, the 'mpty PDF data.' toast, status unchanged |
| PdfSelectorProofs.SingleShotRefusesLarge | force-app/main/default/lwc/pdfSelector/pdfSelector.js:132-136 | data over 10,000,000 characters: no call, the 'File too large.' toast, status unchanged |
| PdfSelectorProofs.SingleShotSends | force-app/main/default/lwc/pdfSelector/pdfSelector.js:138-148 | otherwise exactly one call with the whole text; success toast and status success iff it is accepted, the error toast with the detail and status failure iff it is rejected |
| PdfSelectorProofs.SaveSingle | force-app/main/default/lwc/pdfSelector/pdfSelector.js:103-105 | handleSave with 0 < length ≤ CHUNK_SIZE makes exactly the one savePdfToSalesforce call with the whole text (so the 10,000,000 ceiling is never reached from it); the toast and status follow the answer |
| PdfSelectorProofs.ChunkedTrace | force-app/main/default/lwc/pdfSelector/pdfSelector.js:106-108 | above CHUNK_SIZE, handleSave's trace is console lines, the loop, and the success toast, with status success |
| PdfSelectorProofs.SaveChunked | force-app/main/default/lwc/pdfSelector/pdfSelector.js:106-108 | above CHUNK_SIZE: at least two chunks; the calls are the loop's chunk calls starting with a null id; the toasts are at most one chunk error followed by the success toast; status success |
| PdfSelectorProofs.ChunkFailureStillReportsSuccess | force-app/main/default/lwc/pdfSelector/pdfSelector.js:187-195 | when chunk f + 1 is rejected: exactly f + 1 calls, the toasts are that chunk's error then the success toast, and saveStatus ends as success |
| PdfSelectorProofs.SaveAllAccepted | force-app/main/default/lwc/pdfSelector/pdfSelector.js:164-195 | all chunks accepted: every chunk sent, the last flagged as last, only the success toast, status success |
| PdfSelectorProofs.FirstChunkWithoutId | force-app/main/default/lwc/pdfSelector/pdfSelector.js:162-178 | the first call sends the first CHUNK_SIZE characters, not flagged last, with a null id |
| PdfSelectorProofs.LaterChunksCarryId | force-app/main/default/lwc/pdfSelector/pdfSelector.js:177-184 | every call after the first truthy answer carries that answer as its id |
| PdfSelectorProofs.SaveIgnoresDebugLevel | force-app/main/default/lwc/pdfSelector/pdfSelector.js:88-201 | the calls, the toasts and the status are the same at every debug level |
| PdfSelectorProofs.JustOverChunkSize | force-app/main/default/lwc/pdfSelector/pdfSelector.js:164-168 | CHUNK_SIZE + 1 characters make two chunks, of CHUNK_SIZE characters and of one |
| PdfSelectorProofs.JustOverChunkSizeSaved | force-app/main/default/lwc/pdfSelector/pdfSelector.js:164-195 | and, both accepted, the two calls are the full chunk (not last, null id) and the one-character chunk (last, the first answer as id), with only the success toast |
| PdfSelectorProofs.NineMiBSecondChunkRejected | force-app/main/default/lwc/pdfSelector/pdfSelector.js:164-195 | 9 MiB with chunk 2 rejected: two calls, the error toast for chunk 2 then the success toast, status success |
| PdfViewer.StoredLevel | force-app/main/default/lwc/pdfViewer/pdfViewer.js:55-63 | the stored level is in 0..3; it is the value when the value is a whole number from 0 to 3, and 0 otherwise (including NaN) |
| PdfViewer.PdfViewer.constructor | force-app/main/default/lwc/pdfViewer/pdfViewer.js:41-86 | a new viewer has level 0, pdfId undefined, no editor and no effects |
| PdfViewer.PdfViewer.DebugLevel | force-app/main/default/lwc/pdfViewer/pdfViewer.js:51-53 | the getter returns a level in 0..3 |
| PdfViewer.PdfViewer.SetDebugLevel | force-app/main/default/lwc/pdfViewer/pdfViewer.js:55-63 | keeps the level in 0..3; the getter then returns StoredLevel of the value (the value itself when it is a level, 0 otherwise); writes the reset warning exactly when the value is not a level |
| PdfViewer.PdfViewer.PdfId | force-app/main/default/lwc/pdfViewer/pdfViewer.js:72-74 | the getter returns the stored id; SetPdfId ensures the round trip PdfId() == value |
| PdfViewer.PdfViewer.SetPdfId | force-app/main/default/lwc/pdfViewer/pdfViewer.js:76-81 | always stores the value, so the getter then returns it (PdfId() == value); starts a load exactly when the value is neither null nor undefined |
| PdfViewer.PdfViewer.LoadPdfFromSalesforce | force-app/main/default/lwc/pdfViewer/pdfViewer.js:138-154 | fetches the content for the current id; falsy content and rejections end in the 'Error loading PDF.' event; only truthy content reaches loadPDF |
| PdfViewer.PdfViewer.InitializeEditor | force-app/main/default/lwc/pdfViewer/pdfViewer.js:122-133 | without the container an error line is written and no editor is created; with it an editor exists |
| PdfViewer.ResetWarningWritten | force-app/main/default/lwc/pdfViewer/pdfViewer.js:60 | the reset warning is always written, as a [WARN] line on console.warn |
| PdfViewer.SetDebugLevelIdempotent | force-app/main/default/lwc/pdfViewer/pdfViewer.js:55-63 | setting the stored level again is accepted and stores the same level |
| PdfViewer.OnlyContentIsLoaded | force-app/main/default/lwc/pdfViewer/pdfViewer.js:143-147 | a text reaches loadPDF iff it is the non-empty content getPdfContent delivered and an editor exists |
| PdfViewer.LoadShape | force-app/main/default/lwc/pdfViewer/pdfViewer.js:138-154 | a load is one fetch with the current id followed by either loadPDF or exactly one error event, the event exactly when the content does not reach the editor |
| PdfViewer.EmptyContentReported | force-app/main/default/lwc/pdfViewer/pdfViewer.js:143-145 | null or empty content ends in the 'error' event carrying the empty-file error |
| PdfViewer.PdfIdLoadsIff | force-app/main/default/lwc/pdfViewer/pdfViewer.js:76-81 | the setter's effects are non-empty, and contain a fetch with the new id, iff the id is neither null nor undefined |

## Left out

- The Apex methods `savePdfToSalesforce`, `savePdfChunk` and `getPdfContent` are not modelled. Their answers are parameters: an accepted value, or the `JSON.stringify` text of the error as a string.
- Asynchrony is not modelled. `handleSave` does not await the upload, and the `pdfId` setter does not await the load. Each is run to completion inside the call, so interleaving with other events is not captured. Neither is a second upload started before the first ends.
- `HandleSave`, `UploadPdfToSalesforceAsync`: their `requires` that the answer sequence covers every chunk is a requirement on the Apex oracle, not one the component makes.
- The outer `catch` blocks of `handleSave` (pdfSelector.js:110-114) and `uploadPdfToSalesforceAsync` (pdfSelector.js:196-200) are not modelled. Nothing inside their `try` blocks can throw once the Apex calls are inputs.
- `wiredPdfList`, `handlePdfChange`, the `pdfOptions` and `selectedPdfId` fields, and the read-only selector `pdfSelectorReadOnly.js` are not part of this model. They belong to the PDF list wiring.
- `connectedCallback`, the script loading and the window `message` listener of the viewer are not modelled. They are browser lifecycle and messaging.
- `PdfViewer.PdfViewer.InitializeEditor` is reduced to whether the container exists. The editor library is outside the model.
- The data is taken as base64, that is ASCII, text. There a character and a UTF-16 code unit coincide, so `length` and `substring` agree with Dafny's string length and slicing. Text with characters outside the Basic Multilingual Plane would be measured and cut differently by JavaScript, and that case is not modelled.
- `PdfSelector.Render` only documents the exact text of each message. The proofs work on the `Message` constructors and do not use it.
- Console lines, toasts and events are records in a trace. The `ShowToastEvent` and `CustomEvent` objects themselves and the DOM dispatch are not modelled.
- The level argument of `logMessage` is a `Level` value. The three recognised names are constructors, and any other string is kept as it is. Levels are built from strings by `LevelOf` only, so an unrecognised level never carries the name `info`, `warning` or `error`. `LogMessageOfName` states the filter on the string itself.
- `PdfViewer.PdfViewer.SetDebugLevel` takes the result of `Number(value)` as a rational number or NaN. The coercion itself and the infinities are not modelled.
- The viewer's calls `logMessage('info', …)` and `logMessage('error', …)` (pdfViewer.js:132, 140, 148, 151) pass a string as the debug level. `'info' > 0` is false, so they never write anything, and the model writes nothing for them.
- `PdfViewer.NullEditorError`: the text of the engine's error for `loadPDF` on a null editor depends on the JavaScript engine. It is a fixed placeholder.
- `PdfViewer.IdValue` distinguishes undefined, null and strings only. Other JavaScript values as `pdfId` are not modelled.

Two behaviours of the code that a reader may not expect:

- After a rejected chunk the loop breaks, but control then reaches the success toast and `saveStatus = 'success'` (pdfSelector.js:190-195). The status ends as success, not failure. `ChunkFailureStillReportsSuccess` states this.
- The document id is replaced while it is falsy, by whatever the answer is (pdfSelector.js:181-184). A falsy answer is therefore stored, and the next accepted chunk replaces it again.
