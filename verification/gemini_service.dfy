/** `analyzeDocuments` (geminiService.ts): the credential guard, the request
    sent to the generative model, and the mapping of the model's answer or
    failure to the string the caller receives. */
module GeminiService {
  import opened JsValues
  import opened JsStrings
  import opened Types

  const ModelId := "gemini-3-pro-preview"
  const ThinkingBudget: nat := 32000

  const KeyNotFoundMessage := "API ключ не найден. Добавьте переменную API_KEY в настройки Vercel."
  const EmptyResponseMessage := "Модель вернула пустой ответ. Попробуйте загрузить документы более четко."
  /** The headings that open the fixed error messages. */
  const UpperErrorHeading := "ОШИБКА: "
  const ErrorHeading := "Ошибка: "

  const InvalidKeyMessage := UpperErrorHeading + "Ваш API-ключ недействителен. Пожалуйста, создайте новый ключ на aistudio.google.com и обновите настройки в Vercel (не забудьте сделать Redeploy)."
  const ModelUnavailableMessage := ErrorHeading + "Модель 'gemini-3-pro-preview' недоступна для вашего ключа. Попробуйте использовать другой аккаунт Google AI Studio."
  const BillingMessage := ErrorHeading + "Для использования этой модели необходимо подключить платный аккаунт (Billing) в Google Cloud."
  const AnalysisErrorPrefix := "Ошибка анализа: "

  /** The substrings of an SDK error message that select a fixed message. */
  const KeyNotValidMarker := "API key not valid"
  const KeyInvalidCodeMarker := "API_KEY_INVALID"
  const NotFoundMarker := "Requested entity was not found"
  const BillingMarker := "billing"

  /** The prompt catalog: the system instruction and the stage prompt
      (`SYSTEM_INSTRUCTION` and `getPromptByStage`), whose texts are not part
      of this model. */
  datatype Prompts = Prompts(systemInstruction: string, byStage: AppStage -> string)

  /** One content part of the request. */
  datatype Part = InlineData(data: Option<string>, mimeType: string) | Text(text: string)

  /** The generation settings that the model observes (sampling temperature
      and nucleus mass are left out). */
  datatype Config = Config(systemInstruction: string, thinkingBudget: nat)

  datatype Request = Request(model: string, parts: seq<Part>, config: Config)

  /** What the SDK call does: resolve with a response whose `text` may be
      missing, or throw an error whose `message` may be missing. */
  datatype SdkOutcome = Response(text: Option<string>) | Failure(message: Option<string>)

  /** What `analyzeDocuments` does: reject before any request exists, or
      resolve with a string after sending exactly one request. */
  datatype Analysis = Threw(message: string) | Returned(request: Request, text: string)

  /** The structured reading of a caught SDK error. */
  datatype ErrorKind = InvalidKey | ModelUnavailable | Billing | Other(detail: string)

  /** `process.env.API_KEY` is usable: defined, non-empty, and not the string
      a build tool writes for an unset variable. */
  predicate KeyPresent(apiKey: Option<string>) {
    Truthy(apiKey) && apiKey.value != "undefined"
  }

  /** One inline-data part per file, in file order. */
  function FileParts(files: seq<DocumentFile>): (parts: seq<Part>)
    ensures |parts| == |files|
    ensures forall i :: 0 <= i < |files| ==>
      parts[i] == InlineData(files[i].base64, files[i].mimeType)
  {
    if |files| == 0 then []
    else [InlineData(files[0].base64, files[0].mimeType)] + FileParts(files[1..])
  }

  /** The request: all file parts first, then a single trailing prompt part;
      the model id and the settings do not depend on the call. */
  function BuildRequest(files: seq<DocumentFile>, stage: AppStage, prompts: Prompts): (req: Request)
    ensures req.model == ModelId
    ensures req.config == Config(prompts.systemInstruction, ThinkingBudget)
    ensures |req.parts| == |files| + 1
    ensures forall i :: 0 <= i < |files| ==>
      req.parts[i] == InlineData(files[i].base64, files[i].mimeType)
    ensures req.parts[|files|] == Text(prompts.byStage(stage))
  {
    Request(ModelId,
            FileParts(files) + [Text(prompts.byStage(stage))],
            Config(prompts.systemInstruction, ThinkingBudget))
  }

  /** Every part but the last is inline data and the last is text. */
  ghost predicate EvidenceBeforeInstruction(parts: seq<Part>) {
    && |parts| >= 1
    && parts[|parts| - 1].Text?
    && forall i :: 0 <= i < |parts| - 1 ==> parts[i].InlineData?
  }

  /** The request always puts the evidence before the instruction. */
  lemma RequestOrdersEvidenceFirst(files: seq<DocumentFile>, stage: AppStage, prompts: Prompts)
    ensures EvidenceBeforeInstruction(BuildRequest(files, stage, prompts).parts)
  {
  }

  /** Two stages give requests that differ at most in the trailing prompt. */
  lemma StageOnlySelectsPrompt(files: seq<DocumentFile>, s1: AppStage, s2: AppStage, prompts: Prompts)
    ensures var r1, r2 := BuildRequest(files, s1, prompts), BuildRequest(files, s2, prompts);
      && r1.model == r2.model
      && r1.config == r2.config
      && |r1.parts| == |r2.parts|
      && r1.parts[..|files|] == r2.parts[..|files|]
      && (prompts.byStage(s1) == prompts.byStage(s2) <==> r1 == r2)
  {
    var r1, r2 := BuildRequest(files, s1, prompts), BuildRequest(files, s2, prompts);
    if r1 == r2 {
      assert r1.parts[|files|] == r2.parts[|files|];
    }
  }

  /** `response.text`, or the fixed retry message when it is missing or empty;
      either way the caller never receives an empty string. */
  function ResponseMessage(text: Option<string>): (r: string)
    ensures r != ""
    ensures Truthy(text) ==> r == text.value
    ensures !Truthy(text) ==> r == EmptyResponseMessage
  {
    OrElse(text, EmptyResponseMessage)
  }

  /** The catch block's substring tests, in their order of priority; a missing
      message reads as the empty string. */
  function KindOf(message: Option<string>): ErrorKind {
    var m := OrElse(message, "");
    if Includes(m, KeyNotValidMarker) || Includes(m, KeyInvalidCodeMarker) then InvalidKey
    else if Includes(m, NotFoundMarker) then ModelUnavailable
    else if Includes(m, BillingMarker) then Billing
    else Other(m)
  }

  /** The user-facing string of each kind. */
  function KindMessage(kind: ErrorKind): string {
    match kind
    case InvalidKey => InvalidKeyMessage
    case ModelUnavailable => ModelUnavailableMessage
    case Billing => BillingMessage
    case Other(detail) => AnalysisErrorPrefix + detail
  }

  /** The string returned for a caught SDK error. */
  function ClassifyError(message: Option<string>): (r: string)
    ensures var m := OrElse(message, "");
      && (Includes(m, KeyNotValidMarker) || Includes(m, KeyInvalidCodeMarker) ==> r == InvalidKeyMessage)
      && ((!Includes(m, KeyNotValidMarker) && !Includes(m, KeyInvalidCodeMarker)
           && Includes(m, NotFoundMarker)) ==> r == ModelUnavailableMessage)
      && ((!Includes(m, KeyNotValidMarker) && !Includes(m, KeyInvalidCodeMarker)
           && !Includes(m, NotFoundMarker) && Includes(m, BillingMarker)) ==> r == BillingMessage)
      && ((!Includes(m, KeyNotValidMarker) && !Includes(m, KeyInvalidCodeMarker)
           && !Includes(m, NotFoundMarker) && !Includes(m, BillingMarker)) ==> r == AnalysisErrorPrefix + m)
  {
    KindMessage(KindOf(message))
  }

  /** Reads an error kind back from a user-facing string; `None` for a string
      that is none of the four error messages. */
  function DecodeError(r: string): Option<ErrorKind> {
    if r == InvalidKeyMessage then Some(InvalidKey)
    else if r == ModelUnavailableMessage then Some(ModelUnavailable)
    else if r == BillingMessage then Some(Billing)
    else if AnalysisErrorPrefix <= r then Some(Other(r[|AnalysisErrorPrefix|..]))
    else None
  }

  /** The four messages are told apart: the kind, and for the catch-all the
      original SDK message, can be recovered from the returned string. */
  lemma ClassifyErrorDecodes(message: Option<string>)
    ensures DecodeError(ClassifyError(message)) == Some(KindOf(message))
  {
    match KindOf(message)
    case InvalidKey =>
    case ModelUnavailable =>
      assert ModelUnavailableMessage[1] == ErrorHeading[1] != UpperErrorHeading[1] == InvalidKeyMessage[1];
    case Billing =>
      assert BillingMessage[1] == ErrorHeading[1] != UpperErrorHeading[1] == InvalidKeyMessage[1];
      assert |BillingMessage| != |ModelUnavailableMessage|;
    case Other(detail) =>
      var r := AnalysisErrorPrefix + detail;
      assert r[1] == AnalysisErrorPrefix[1] != UpperErrorHeading[1] == InvalidKeyMessage[1];
      assert r[6] == AnalysisErrorPrefix[6] != ErrorHeading[6];
      assert ModelUnavailableMessage[6] == ErrorHeading[6] == BillingMessage[6];
      assert r[|AnalysisErrorPrefix|..] == detail;
  }

  /** The invalid-key test comes first: an SDK message naming an invalid key
      gives the invalid-key message whatever else it mentions. */
  lemma InvalidKeyWins(pre: string, post: string)
    ensures ClassifyError(Some(pre + KeyNotValidMarker + post)) == InvalidKeyMessage
    ensures ClassifyError(Some(pre + KeyInvalidCodeMarker + post)) == InvalidKeyMessage
  {
    IncludesInfix(pre, KeyNotValidMarker, post);
    IncludesInfix(pre, KeyInvalidCodeMarker, post);
  }

  /** `analyzeDocuments(files, stage)` with the credential, the prompt catalog
      and the SDK call supplied as parameters. */
  function AnalyzeDocuments(apiKey: Option<string>, files: seq<DocumentFile>, stage: AppStage,
                            prompts: Prompts, sdk: Request -> SdkOutcome): (a: Analysis)
    ensures a.Threw? <==> !KeyPresent(apiKey)
    ensures a.Threw? ==> a.message == KeyNotFoundMessage
    ensures a.Returned? ==> a.request == BuildRequest(files, stage, prompts)
    ensures a.Returned? && sdk(a.request).Response? ==> a.text == ResponseMessage(sdk(a.request).text)
    ensures a.Returned? && sdk(a.request).Failure? ==> a.text == ClassifyError(sdk(a.request).message)
  {
    if !KeyPresent(apiKey) then Threw(KeyNotFoundMessage)
    else
      var request := BuildRequest(files, stage, prompts);
      match sdk(request)
      case Response(text) => Returned(request, ResponseMessage(text))
      case Failure(message) => Returned(request, ClassifyError(message))
  }

  /** With a usable key the call always resolves: a non-empty answer comes back
      unchanged, an empty one as the retry message, and a thrown SDK error as a
      string that decodes to its kind. The resolved string is never empty. */
  lemma AnalyzeResolvesEveryOutcome(apiKey: Option<string>, files: seq<DocumentFile>, stage: AppStage,
                                    prompts: Prompts, sdk: Request -> SdkOutcome)
    requires KeyPresent(apiKey)
    ensures var a := AnalyzeDocuments(apiKey, files, stage, prompts, sdk);
      && a.Returned?
      && a.text != ""
      && (sdk(a.request).Response? && Truthy(sdk(a.request).text) ==> a.text == sdk(a.request).text.value)
      && (sdk(a.request).Response? && !Truthy(sdk(a.request).text) ==> a.text == EmptyResponseMessage)
      && (sdk(a.request).Failure? ==> DecodeError(a.text) == Some(KindOf(sdk(a.request).message)))
  {
    var a := AnalyzeDocuments(apiKey, files, stage, prompts, sdk);
    if sdk(a.request).Failure? {
      ClassifyErrorDecodes(sdk(a.request).message);
      assert |KindMessage(KindOf(sdk(a.request).message))| > 0;
    }
  }
}
