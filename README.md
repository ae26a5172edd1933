# FutureDoc: the analysis flow, modelled in Dafny

FutureDoc is a single-page browser application for legal documents. The user drops
or picks a PDF or plain-text file. The application reads it as a base64 data URL and
sends the payload to an external language-model service. It shows the summary
(`resumo`) and the list of facts (`lista_fatos`) that come back, and it keeps every
successful analysis in a history stored in the browser's `localStorage`. Any earlier
result can be shown again from the history without another call.

This project models the logic behind that flow:

- `Types.dfy`: the records of `types.ts`, namely the analysis result, the stored
  record, the four processing states, a thrown JavaScript error (whose `message`
  may be missing) and a browser `File` (its name and MIME type).
- `Json.dfy`: the JSON text of a result and of a record list as `JSON.stringify`
  writes it, and a decoder for the part of the JSON grammar those two shapes need
  (whitespace between tokens, all string escapes, no raw control characters in
  strings), with proved round trips.
- `StorageService.dfy`: `localStorage` as a class over a string map, with the
  imperative `saveRecord` and `getAllRecords` proved against the functions
  `SavedItems` and `LoadedRecords`, and the save-then-load property.
- `GeminiService.dfy`: `analyzeDocument` takes the configured key and the
  service's behaviour (a function from request to reply) as parameters. Its error
  mapping is modelled, and so is `fileToBase64`'s `split(',')[1]`, including the
  `undefined` it yields on a data URL without a comma.
- `FileUpload.dfy`: the MIME-type gate, the first-file rule, the loading guard on
  drops, and the `isDragging` flag as the field of a class.
- `App.dfy`: the component state (`status`, `result`, `history`, `errorMsg`) as a
  class. Its methods are the mount-time load, the whole of `handleFileSelect` and
  `handleHistoryClick`. Two invariants hold across them:
  - a success always has a result, and processing never shows one. In the model
    this holds because only text of the result's shape parses. In the source, a
    reply whose text is `null` parses to `null`, is returned unchecked
    (services/geminiService.ts:61-66), and App.tsx:32-33 then shows success with
    no result;
  - a history in step with a readable store stays in step after a successful analysis.

The model has three inputs that the browser would otherwise supply:

- the outcome of the `FileReader` (`ReaderEvent`);
- the id from `crypto.randomUUID()`, as a `Result`, since the call can throw after
  the result is already shown;
- the timestamp from `new Date().toISOString()`, as a string.

Two consequences of the code, as written, are stated as lemmas:

- The "no text" message (`A IA não retornou texto.`) is thrown inside the same `try`
  whose `catch` replaces every error with the generic message, so it never reaches
  the user (`GeminiService.NoTextIsGeneric`, `GeminiService.FailureMessages`).
- The DOCX type is listed in `validTypes` but is not accepted by the gate
  (`FileUpload.DocxRejected`).

## Model

| member | source | states |
|---|---|---|
| App.DisplayedMessage | App.tsx:49 | the banner shows the error's message when it is present and non-empty, and the fixed fallback otherwise; it is never empty |
| App.AnalyzeFile | App.tsx:26-30 | succeeds exactly when the reader yields text, a key is configured and the service's reply to the extracted payload and the file's MIME type parses, and then gives that parsed reply; a failure carries no message (reader error) or one of the read-failure, missing-key and generic messages; a non-text read and a missing key give their own messages |
| App.AnalyzeFileReturnsServiceResult | App.tsx:27-30 | for a data URL `data:<type>;base64,<payload>`, exactly one request goes to the service, carrying that payload and type, and the result the service encodes is returned unchanged |
| App.ServiceErrorShowsGenericMessage | App.tsx:46-49 | when the service throws, the user sees the generic failure message, not the service's own |
| App.ReadErrorShowsFallback | App.tsx:49 | a FileReader error event has no message, so the fallback message is shown |
| App.AppState.constructor | App.tsx:10-13 | starts idle, with no result, an empty history and no error |
| App.AppState.LoadHistory | App.tsx:16-19 | the history becomes what the store yields, and is in step with a readable store; the status, result and error are unchanged |
| App.AppState.BeginAnalysis | App.tsx:22-24 | a new analysis starts processing, with the result and error cleared and the history kept |
| App.AppState.CompleteAnalysis | App.tsx:26-50 | a failed read or analysis sets the error with its message and leaves the history and store alone; success shows the result; a thrown id generation then turns the status to error while the result stays; otherwise the new record heads the history and is saved; a history in step with the store stays in step |
| App.AppState.HandleFileSelect | App.tsx:21-51 | the whole flow from any state: as for the completion step, with the result cleared on failure and the error cleared on success |
| App.AppState.HandleHistoryClick | App.tsx:53-58 | shows the record's stored result with success status, and changes neither the history nor the error |
| StorageService.LocalStorage.GetItem | services/storageService.ts:12 | returns the stored value exactly when the key is present |
| StorageService.LocalStorage.SetItem | services/storageService.ts:15 | overwrites one key and nothing else |
| StorageService.LoadedRecords | services/storageService.ts:22-30 | an absent key, or a value that does not parse, gives the empty list; otherwise the stored list |
| StorageService.SavedItems | services/storageService.ts:10-20 | only the storage key can change; a value that does not parse is left as it is, and otherwise the key is written |
| StorageService.SaveRecord | services/storageService.ts:10-20 | the imperative save leaves the store equal to `SavedItems` of the old store |
| StorageService.GetAllRecords | services/storageService.ts:22-30 | the imperative read returns `LoadedRecords` of the store without changing it, and an absent key gives the empty list |
| StorageService.SaveThenLoad | services/storageService.ts:13-15 | after a save to a readable store, loading gives the new record followed by the earlier list in its order; after a save to an unreadable store, loading still gives the empty list |
| StorageService.SaveKeepsStoreReadable | services/storageService.ts:13-15 | a save keeps a readable store readable and adds exactly one record, with no check for a duplicate id |
| StorageService.ThirdSaveOrder | services/storageService.ts:14 | saves are kept newest first |
| GeminiService.RequestAndParse | services/geminiService.ts:19-66 | the try block succeeds exactly when the service answers with non-empty text that parses as a result, and gives back that result; a throw and a missing or empty text give their own errors |
| GeminiService.AnalyzeDocument | services/geminiService.ts:9-72 | without a key it fails with the configuration message and sends nothing; with one it sends exactly one request with the data and type as given, fails only with the generic message, and succeeds exactly when the reply parses |
| GeminiService.FailureMessages | services/geminiService.ts:13-15 | the only failure messages are the configuration message and the generic one; the no-text message never escapes |
| GeminiService.AnswerReturnedAsIs | services/geminiService.ts:65-66 | text that encodes a result yields exactly that result, with no check of the summary's length or the number of facts |
| GeminiService.NoTextIsGeneric | services/geminiService.ts:60-63 | a missing or empty text is reported through the generic message |
| GeminiService.Split | services/geminiService.ts:81 | `split` on one character gives at least one part, no part contains the separator, and joining the parts restores the string |
| GeminiService.SecondSegment | services/geminiService.ts:81 | `split(',')[1]` is defined exactly when the string has a comma, and is then free of commas |
| GeminiService.SplitWithoutSeparator | services/geminiService.ts:81 | a string without the separator splits into itself alone |
| GeminiService.SplitAfterPrefix | services/geminiService.ts:81 | a separator-free prefix before the separator becomes the first part |
| GeminiService.SecondSegmentOf | services/geminiService.ts:81 | for `a,b` followed by nothing or by another comma, the second segment is `b` |
| GeminiService.DataUrlPayload | services/geminiService.ts:79-82 | the data URL `data:<type>;base64,<payload>` yields its payload |
| GeminiService.FileToBase64 | services/geminiService.ts:74-89 | resolves exactly on a string result, with the second comma-separated segment, which is missing when there is no comma; a non-string result rejects with the read-failure message; a read error rejects with no message |
| FileUpload.ValidateAndUpload | components/FileUpload.tsx:38-49 | forwards the file unchanged exactly when its type is PDF or plain text, and otherwise alerts with the rejection message |
| FileUpload.FileInputAction | components/FileUpload.tsx:32-36 | no files means no action; otherwise the gate applies to the first file |
| FileUpload.DropAction | components/FileUpload.tsx:21-30 | a drop while loading does nothing; otherwise as for the file input |
| FileUpload.DropForwardsFirstAccepted | components/FileUpload.tsx:24-28 | a drop forwards a file exactly when not loading and the first file has an accepted type, and the file forwarded is that first file |
| FileUpload.DocxRejected | components/FileUpload.tsx:39-48 | the DOCX type is in the valid-types list yet is rejected |
| FileUpload.DropZone.constructor | components/FileUpload.tsx:9 | the highlight starts off |
| FileUpload.DropZone.HandleDragOver | components/FileUpload.tsx:11-14 | dragging over turns the highlight on |
| FileUpload.DropZone.HandleDragLeave | components/FileUpload.tsx:16-19 | leaving turns the highlight off |
| FileUpload.DropZone.HandleDrop | components/FileUpload.tsx:21-30 | every drop turns the highlight off, even one ignored while loading, and acts as `DropAction` |
| FileUpload.DropZone.HandleFileInput | components/FileUpload.tsx:32-36 | the input acts as `FileInputAction` and leaves the highlight unchanged |
| Json.SkipWhitespace | services/storageService.ts:13 | never lengthens the text, and leaves it starting with something other than whitespace |
| Json.SkipWhitespaceDropsWhitespace | services/storageService.ts:13 | what is left is a suffix of the input, and everything before it is whitespace: exactly the leading whitespace is dropped |
| Json.RawControlRefused | services/geminiService.ts:65 | a raw control character inside a string literal makes the text unparseable, as it makes `JSON.parse` throw |
| Json.ExpectRoundTrip | services/storageService.ts:13 | a written delimiter is read back, leaving the rest |
| Json.StringRoundTrip | services/storageService.ts:13-15 | any string, control characters included, written as a JSON string literal parses back to itself, leaving the text after it |
| Json.KeyRoundTrip | services/storageService.ts:13-15 | a written object key and its colon are read back |
| Json.ArrayRoundTrip | services/storageService.ts:13-15 | for any element writer and inverse reader, an array written by the one is read back by the other, whatever follows it |
| Json.StringsRoundTrip | services/geminiService.ts:65 | a list of strings round-trips |
| Json.ResultRoundTrip | services/geminiService.ts:65 | an analysis result round-trips |
| Json.RecordRoundTrip | services/storageService.ts:13-15 | a stored record round-trips |
| Json.RecordsRoundTrip | services/storageService.ts:13-15 | a record list round-trips |
| Json.RecordsDocumentRoundTrip | services/storageService.ts:15 | the text written for a record list is never empty, so it is never read as "no data", and it parses back to the same list |
| Json.ResultDocumentRoundTrip | services/geminiService.ts:65 | the text of a result is non-empty and parses back to that result |

## Left out

- JSON in general: `JSON.stringify` and `JSON.parse` are modelled only for the two
  document shapes the application writes. The decoder accepts whitespace between
  tokens and every escape of the JSON string grammar. It refuses some text that
  `JSON.parse` accepts, and reads that text as unparseable:
  - objects whose keys come in another order, or with extra or repeated keys;
  - values of other types where a string or an array is expected;
  - a `\uXXXX` escape in the surrogate range, including the two halves of an
    escaped pair, since a Dafny `char` is a whole Unicode scalar value.
- StorageService.SavedItems: a stored array that `JSON.parse` reads but this decoder
  refuses is left as it is, and the new record is lost. The source would put the
  record at its front and write it back.
- StorageService.LoadedRecords: a stored value that parses but is not a record array
  (`null`, `{}`, a number) reads as unparseable and gives the empty list. The source
  would return that value unchecked.
- GeminiService.RequestAndParse: the `as LegalAnalysisResult` cast is unchecked in
  the source, so any JSON text is returned. Here only text of the result's shape
  succeeds, and anything else takes the generic-failure path.
- The service call itself: the model name, instruction text, prompt and response
  schema are fixed data. The service is a parameter, a function from the request to
  its reply. The `GoogleGenAI` constructor, which sits outside the `try`, is taken
  not to throw.
- Promises, `async`/`await` and React re-rendering: each handler runs to completion.
  Interleaving, such as a history click during a pending analysis, is not modelled.
  `setHistory(prev => …)` is modelled as reading the current history.
- `crypto.randomUUID()` and `new Date().toISOString()` are parameters; id uniqueness
  and timestamp format are not modelled.
- `localStorage`: quota errors, unavailability, and other tabs writing the same key
  are not modelled. A thrown `setItem` would be caught and logged, like the parse
  failure that is modelled.
- `FileReader`: its encoding of the file's bytes is not modelled; its outcome is an
  input.
- Console logging, `window.scrollTo`, `alert` (modelled as the `Alert` action), JSX
  rendering, drag styling and `preventDefault` are not modelled.
- A null `dataTransfer.files` or `target.files` is modelled as an empty selection.
- FileUpload.FileInputAction: there is no loading check, because the `disabled`
  attribute on the input stops the browser from sending change events while loading.
- The view components `components/Header.tsx` and `components/AnalysisResults.tsx`
  only render; they are not part of this model.
