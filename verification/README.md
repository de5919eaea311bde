# AutoLegalExpert: audit request orchestration, modelled in Dafny

AutoLegalExpert is a single-page tool. The user uploads photos or PDFs of vehicle-modification
documents, picks an audit stage (preliminary or final), confirms that the title checks are done,
and gets a compliance audit written by a Gemini model. This project models the page's logic and
proves its properties. It covers the staged file list and its three handlers (`App.tsx`) and the
service call `analyzeDocuments` (`geminiService.ts`): the credential guard, the request it builds,
and how the model's answer or failure becomes the string the page shows.

Modules:

- `JsValues` (`js_values.dfy`): a value that may be `undefined` (`Option`). It also gives JavaScript
  truthiness for strings, which is behind `!apiKey`, `!response.text`, `error.message || ""` and
  `err.message || fallback`.
- `JsStrings` (`js_strings.dfy`): `includes` as a left-to-right scan, proved equal to "occurs
  somewhere". It also has `split` on a one-character separator, with `join`, proved inverse to each
  other in both directions.
- `Types` (`types.dfy`): `AppStage`, `DocumentFile` and `AnalysisResult` from `types.ts:2-16`.
- `GeminiService` (`gemini_service.dfy`): `analyzeDocuments`. Three things come in as parameters:
  the credential (`process.env.API_KEY`), the prompt catalog (`Prompts`) and the SDK call
  (`sdk: Request -> SdkOutcome`). The result is either `Threw` (the only rejection: missing key) or
  `Returned`, which carries the one request sent and the resolved string.
- `App` (`app.dfy`): the page state, `handleFileChange`, `removeFile` and `handleAnalyze`.
  Reading a file comes in as its data-URL string, the service as a function and `Date.now()` as a
  `nat`. `GeminiBackend` plugs the modelled `analyzeDocuments` in as that service.

What the code does at its edges, which the model keeps:

- SDK failures and an empty answer are not rejections. `analyzeDocuments` resolves to a fixed or
  prefixed string (geminiService.ts:42-64), and the page stores that string as a result, not as
  an error (`App.AuditFailuresShowAsResult`), although those strings open with "Ошибка" or
  "ОШИБКА" (geminiService.ts:53-61). Only the missing-key case rejects (geminiService.ts:9-11),
  and the page shows that rejection as an error.
- The file reads of one selection are awaited in sequence (App.tsx:19-27). The first failed read
  rejects the handler before `setFiles`, so the whole selection is dropped, and the staged list
  and the error stay as they were.
- A result and an error can be shown together. With no files staged, `handleAnalyze` sets the
  upload prompt as the error and keeps an earlier result (App.tsx:46-49,
  `App.UploadPromptBesideStaleResult`). The analyze button is disabled when the list is empty
  (App.tsx:228), so this state needs the handler to be reached some other way.
- `analyzeDocuments` itself does not reject an empty file list. It sends a request whose only
  part is the prompt.
- `split(',')[1]` gives `undefined` for a data URL with no comma (App.tsx:24), although types.ts:9
  declares `base64: string`. So `DocumentFile.base64` is an `Option<string>`.

## Model

| member | source | states |
|---|---|---|
| JsStrings.IncludesIffOccurs | geminiService.ts:52-60 | the `includes` scan answers true exactly when the substring occurs at some position of the message |
| JsStrings.JoinSplit | App.tsx:24 | splitting on `,` loses nothing: joining the pieces gives back the data URL, and no piece contains a comma |
| JsStrings.SplitJoin | App.tsx:24 | splitting a join of comma-free pieces gives back exactly those pieces |
| GeminiService.FileParts | geminiService.ts:16-21 | one inline-data part per file, same count and order, each carrying that file's `base64` and `mimeType` |
| GeminiService.BuildRequest | geminiService.ts:23-40 | N files give N+1 parts: part i is file i's inline data and the last part is the stage's prompt; the model id is `gemini-3-pro-preview`, and the system instruction and the thinking budget of 32000 are the same for every call |
| GeminiService.RequestOrdersEvidenceFirst | geminiService.ts:28-33 | every part before the last is inline data and the last one is text |
| GeminiService.StageOnlySelectsPrompt | geminiService.ts:23-38 | two stages give the same model, config and file parts; the requests are equal exactly when the two stage prompts are equal |
| GeminiService.ResponseMessage | geminiService.ts:42-46 | a successful call never hands the caller an empty string: a missing or empty `response.text` is replaced by the (non-empty) retry message, and any other text is passed through |
| GeminiService.ClassifyError | geminiService.ts:50-64 | the invalid-key message when either key marker occurs; otherwise the model-unavailable message for "Requested entity was not found"; otherwise the billing message for "billing"; otherwise the analysis-error prefix followed by the message, with a missing message read as empty |
| GeminiService.ClassifyErrorDecodes | geminiService.ts:52-64 | the four outcomes give distinct strings: the error kind, and for the catch-all the SDK message itself, can be read back from the returned string |
| GeminiService.InvalidKeyWins | geminiService.ts:52-54 | any message containing an invalid-key marker gives the invalid-key message, whatever else it contains |
| GeminiService.AnalyzeDocuments | geminiService.ts:6-66 | it rejects, with the fixed key-not-found message and no request, exactly when the key is missing, empty or `"undefined"`; otherwise it sends the built request once and resolves with the mapped answer or the classified failure |
| GeminiService.AnalyzeResolvesEveryOutcome | geminiService.ts:25-65 | with a usable key nothing is rethrown: a non-empty answer is returned as is, an empty one as the retry message, a thrown error as a string that decodes to its kind, and the returned string is never empty |
| App.DataUrlPayload | App.tsx:24 | the payload is undefined exactly when the data URL has no comma; otherwise it contains no comma |
| App.DataUrlPayloadOf | App.tsx:24 | for `head,payload` with a comma-free head and the payload followed by nothing or by a comma, the result is exactly `payload` |
| App.DataUrlPayloadShape | App.tsx:24 | a defined payload always sits right after the first comma and runs to the next comma or to the end |
| App.StageBatch | App.tsx:18-27 | one record per selected file, in selection order, with the file's name and type and the payload of its data URL |
| App.HandleFileChange | App.tsx:15-30 | a missing file list or a failed read changes nothing; otherwise the old list stays as a prefix, the batch follows in order with each entry's name, type and payload, the error is cleared, and nothing else changes |
| App.SelectionsAccumulate | App.tsx:28 | after successive selections of fully read batches the staged list is the old list followed by every batch, in selection order (a batch with a failed read is dropped whole, see `App.HandleFileChange`) |
| App.RemoveAtDropsIndex | App.tsx:42 | the index filter removes exactly the element at the index and keeps the others in order; an index outside the list removes nothing |
| App.RemoveFile | App.tsx:41-43 | only the staged list changes: the element at the index goes and the rest keep their order, and an out-of-range index leaves the list as it was |
| App.HandleAnalyze | App.tsx:45-64 | with no files it sets the upload prompt and makes no call; without the confirmation it changes nothing; otherwise it clears result and error while the call runs, and afterwards `isAnalyzing` is false and exactly one of result (`{text, now}` when the call resolved) and error (the message, or the connection fallback when the message is missing or empty) is set |
| App.HandlersKeepExclusive | App.tsx:15-64 | starting from no result beside an error, adding files, removing a file and running an audit (one with files, or one with no earlier result) keep it that way |
| App.UploadPromptBesideStaleResult | App.tsx:46-49 | with no files and an earlier result, the upload prompt is shown next to that result |
| App.AuditFailuresShowAsResult | App.tsx:56-63 | with the real service the page shows an error only when the key is missing, and that error is the key-not-found message; every other outcome is a non-empty result |

## Left out

- The Gemini SDK and the network. `new GoogleGenAI` is assumed not to throw, and the call is a
  parameter that returns a response or throws an object whose `message` is a string or missing.
  The model does not see into the library. A thrown `null` or `undefined` is not modelled: reading
  `error.message` on it (geminiService.ts:50) would throw inside the catch block and escape, so the
  "nothing is rethrown" statements of `GeminiService.AnalyzeResolvesEveryOutcome` and
  `App.AuditFailuresShowAsResult` hold for thrown objects only.
- The prompt catalog (`SYSTEM_INSTRUCTION`, `getPromptByStage`). It is not part of this model, so
  it is a parameter. `getPromptByStage` is assumed to return a prompt for both stages without
  throwing.
- `temperature: 0.1` and `topP: 0.95`. These are floating-point settings that the model does not
  carry. Only the thinking budget is in `Config`.
- `FileReader` and `fileToBase64` (App.tsx:32-39), that is, reading a file and base64-encoding it.
  Each selected file comes with its data-URL string or a read failure.
- `Date.now()` is a `nat` parameter. `console.error` and `window.scrollTo` have no effect on the
  state and are omitted.
- React's asynchronous scheduling. `handleAnalyze` is modelled as two states: the one while the
  call is awaited, and the one after it settles. State changes made by other handlers during the
  await are not modelled. The same goes for overlapping audits: the button's `isLoading` does not
  disable it when `disabled` is also passed (Button.tsx:25).
- The stage buttons and the confirmation checkbox (App.tsx:113, 131, 209). They only set
  `stage` and `isVerified`, which are fields of `AppState`.
- All rendering, styling, the stage hints and Button.tsx.
