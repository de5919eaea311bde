/** The page's state and the three handlers that change it (App.tsx):
    staging a selected batch, removing a staged file, and running an audit. */
module App {
  import opened JsValues
  import opened JsStrings
  import opened Types
  import GeminiService

  const UploadPromptMessage := "Пожалуйста, загрузите документы для анализа"
  const ConnectionFailureMessage := "Ошибка соединения с сервером аналитики."

  /** The page's `useState` cells. */
  datatype AppState = AppState(
    stage: AppStage,
    files: seq<DocumentFile>,
    isAnalyzing: bool,
    isVerified: bool,
    result: Option<AnalysisResult>,
    error: Option<string>)

  /** The state the page starts in. */
  const InitialState := AppState(Preliminary, [], false, false, None, None)

  /** What reading one selected file as a data URL produced. */
  datatype ReadOutcome = Loaded(dataUrl: string) | ReadFailed

  /** One entry of the file input's selection, with its read outcome. */
  datatype SelectedFile = SelectedFile(name: string, mimeType: string, read: ReadOutcome)

  /** `dataUrl.split(',')[1]`: the piece after the first comma, up to the next
      comma or the end; `None` (`undefined`) when there is no comma. */
  function DataUrlPayload(dataUrl: string): (payload: Option<string>)
    ensures payload.None? <==> ',' !in dataUrl
    ensures payload.Some? ==> ',' !in payload.value
  {
    var parts := Split(dataUrl, ',');
    JoinSplit(dataUrl, ',');
    if |parts| > 1 then Some(parts[1]) else None
  }

  /** A data URL `head,payload` or `head,payload,…` with a comma-free head
      yields exactly `payload`. */
  lemma DataUrlPayloadOf(head: string, payload: string, tail: string)
    requires ',' !in head && ',' !in payload
    requires tail == [] || tail[0] == ','
    ensures DataUrlPayload(head + [','] + payload + tail) == Some(payload)
  {
    SplitPrefix(head, ',', payload + tail);
    assert head + [','] + payload + tail == head + [','] + (payload + tail);
    if tail == [] {
      assert payload + tail == payload;
      SplitFree(payload, ',');
    } else {
      assert payload + tail == payload + [','] + tail[1..];
      SplitPrefix(payload, ',', tail[1..]);
    }
  }

  /** Conversely, whatever the payload is, the data URL has that shape. */
  lemma DataUrlPayloadShape(dataUrl: string) returns (head: string, tail: string)
    requires DataUrlPayload(dataUrl).Some?
    ensures ',' !in head
    ensures tail == [] || tail[0] == ','
    ensures dataUrl == head + [','] + DataUrlPayload(dataUrl).value + tail
  {
    var parts := Split(dataUrl, ',');
    JoinSplit(dataUrl, ',');
    head := parts[0];
    if |parts| == 2 {
      tail := [];
    } else {
      tail := [','] + Join(parts[2..], ',');
      assert parts[1..][1..] == parts[2..];
    }
  }

  /** Every file of the batch was read. */
  predicate AllLoaded(batch: seq<SelectedFile>) {
    forall i :: 0 <= i < |batch| ==> batch[i].read.Loaded?
  }

  /** The staged record of one read file. */
  function StageFile(f: SelectedFile): DocumentFile
    requires f.read.Loaded?
  {
    DocumentFile(f.name, DataUrlPayload(f.read.dataUrl), f.mimeType)
  }

  /** The records of a batch, in selection order. */
  function StageBatch(batch: seq<SelectedFile>): (staged: seq<DocumentFile>)
    requires AllLoaded(batch)
    ensures |staged| == |batch|
    ensures forall i :: 0 <= i < |batch| ==> staged[i] == StageFile(batch[i])
  {
    if |batch| == 0 then [] else [StageFile(batch[0])] + StageBatch(batch[1..])
  }

  /** `handleFileChange`. A `None` selection is a missing `FileList`. The reads
      are awaited one by one, so one failed read rejects the handler before
      any state is set; otherwise the batch is appended and the error cleared. */
  function HandleFileChange(s: AppState, selection: Option<seq<SelectedFile>>): (s': AppState)
    ensures selection.None? ==> s' == s
    ensures selection.Some? && !AllLoaded(selection.value) ==> s' == s
    ensures selection.Some? && AllLoaded(selection.value) ==>
      var batch := selection.value;
      && |s'.files| == |s.files| + |batch|
      && s'.files[..|s.files|] == s.files
      && (forall i :: 0 <= i < |batch| ==>
            s'.files[|s.files| + i] == DocumentFile(batch[i].name, DataUrlPayload(batch[i].read.dataUrl), batch[i].mimeType))
      && s'.error == None
      && s'.(files := s.files, error := s.error) == s
  {
    match selection
    case None => s
    case Some(batch) =>
      if AllLoaded(batch) then s.(files := s.files + StageBatch(batch), error := None)
      else s
  }

  /** Every batch was read in full. */
  predicate AllBatchesLoaded(batches: seq<seq<SelectedFile>>) {
    forall k :: 0 <= k < |batches| ==> AllLoaded(batches[k])
  }

  /** The records of a sequence of fully read batches, concatenated. */
  function StageAll(batches: seq<seq<SelectedFile>>): seq<DocumentFile>
    requires AllBatchesLoaded(batches)
  {
    if |batches| == 0 then [] else StageBatch(batches[0]) + StageAll(batches[1..])
  }

  /** Selecting the batches one after another. */
  function SelectAll(s: AppState, batches: seq<seq<SelectedFile>>): AppState
    decreases |batches|
  {
    if |batches| == 0 then s else SelectAll(HandleFileChange(s, Some(batches[0])), batches[1..])
  }

  /** Selecting one fully read batch appends its records. */
  lemma SelectOneAppends(s: AppState, batch: seq<SelectedFile>)
    requires AllLoaded(batch)
    ensures HandleFileChange(s, Some(batch)).files == s.files + StageBatch(batch)
  {
  }

  /** Successive selections accumulate: the staged list is the old list
      followed by every batch in selection order. */
  lemma {:induction false} SelectionsAccumulate(s: AppState, batches: seq<seq<SelectedFile>>)
    requires AllBatchesLoaded(batches)
    ensures SelectAll(s, batches).files == s.files + StageAll(batches)
    decreases |batches|
  {
    if |batches| > 0 {
      var first, rest := batches[0], batches[1..];
      assert AllLoaded(first);
      assert AllBatchesLoaded(rest) by {
        forall k | 0 <= k < |rest| ensures AllLoaded(rest[k]) {
          assert rest[k] == batches[k + 1];
        }
      }
      var s1 := HandleFileChange(s, Some(first));
      var old1, new1, later := s.files, StageBatch(first), StageAll(rest);
      assert SelectAll(s, batches) == SelectAll(s1, rest);
      assert StageAll(batches) == new1 + later;
      SelectOneAppends(s, first);
      SelectionsAccumulate(s1, rest);
      assert SelectAll(s1, rest).files == old1 + new1 + later;
      assert old1 + new1 + later == old1 + (new1 + later);
    }
  }

  /** `xs.filter((_, i) => i !== index)`, walking the list with the index
      counted down. */
  function RemoveAt<T>(xs: seq<T>, index: int): (r: seq<T>)
    ensures |r| <= |xs|
    decreases |xs|
  {
    if |xs| == 0 then []
    else (if index == 0 then [] else [xs[0]]) + RemoveAt(xs[1..], index - 1)
  }

  /** The filter drops exactly the element at `index` and keeps the rest in
      order; an index outside the list keeps everything. */
  lemma {:induction false} RemoveAtDropsIndex<T>(xs: seq<T>, index: int)
    ensures 0 <= index < |xs| ==> RemoveAt(xs, index) == xs[..index] + xs[index + 1..]
    ensures !(0 <= index < |xs|) ==> RemoveAt(xs, index) == xs
    decreases |xs|
  {
    if |xs| > 0 {
      RemoveAtDropsIndex(xs[1..], index - 1);
      if index == 0 {
        assert xs[1..] == xs[..0] + xs[1..];
      } else if 0 < index < |xs| {
        assert xs[1..][..index - 1] == xs[1..index];
        assert xs[1..][index..] == xs[index + 1..];
        assert [xs[0]] + xs[1..index] == xs[..index];
      } else {
        assert [xs[0]] + xs[1..] == xs;
      }
    }
  }

  /** `removeFile(index)`: only the staged list changes. */
  function RemoveFile(s: AppState, index: int): (s': AppState)
    ensures 0 <= index < |s.files| ==> s'.files == s.files[..index] + s.files[index + 1..]
    ensures !(0 <= index < |s.files|) ==> s'.files == s.files
    ensures s'.(files := s.files) == s
  {
    RemoveAtDropsIndex(s.files, index);
    s.(files := RemoveAt(s.files, index))
  }

  /** The arguments `handleAnalyze` passes to `analyzeDocuments`. */
  datatype ServiceCall = ServiceCall(files: seq<DocumentFile>, stage: AppStage)

  /** How the awaited service call settled: resolved with a string, or
      rejected with an error whose `message` may be missing. */
  datatype ServiceOutcome = Resolved(text: string) | Rejected(message: Option<string>)

  /** One run of `handleAnalyze`: the state while the call is awaited (when
      there is a call), the state it leaves, and the call it made. */
  datatype AnalyzeRun = AnalyzeRun(inFlight: Option<AppState>, final: AppState, call: Option<ServiceCall>)

  /** `handleAnalyze`, with the service and `Date.now()` supplied. */
  function HandleAnalyze(s: AppState, service: ServiceCall -> ServiceOutcome, now: nat): (run: AnalyzeRun)
    ensures |s.files| == 0 ==>
      run.call == None && run.inFlight == None && run.final == s.(error := Some(UploadPromptMessage))
    ensures |s.files| > 0 && !s.isVerified ==>
      run.call == None && run.inFlight == None && run.final == s
    ensures |s.files| > 0 && s.isVerified ==>
      && run.call == Some(ServiceCall(s.files, s.stage))
      && run.inFlight == Some(s.(isAnalyzing := true, result := None, error := None))
      && !run.final.isAnalyzing
      && run.final.(isAnalyzing := s.isAnalyzing, result := s.result, error := s.error) == s
      && (run.final.result.Some? <==> run.final.error.None?)
      && (service(run.call.value).Resolved? ==>
            run.final.result == Some(AnalysisResult(service(run.call.value).text, now)))
      && (service(run.call.value).Rejected? ==>
            run.final.error == Some(OrElse(service(run.call.value).message, ConnectionFailureMessage)))
  {
    if |s.files| == 0 then
      AnalyzeRun(None, s.(error := Some(UploadPromptMessage)), None)
    else if !s.isVerified then
      AnalyzeRun(None, s, None)
    else
      var started := s.(isAnalyzing := true, result := None, error := None);
      var call := ServiceCall(s.files, s.stage);
      var settled :=
        match service(call)
        case Resolved(text) => started.(result := Some(AnalysisResult(text, now)))
        case Rejected(message) => started.(error := Some(OrElse(message, ConnectionFailureMessage)));
      AnalyzeRun(Some(started), settled.(isAnalyzing := false), Some(call))
  }

  /** A displayed result and a displayed error are not both present. */
  predicate Exclusive(s: AppState) {
    !(s.result.Some? && s.error.Some?)
  }

  /** The handlers keep result and error apart, except that the empty-list
      guard of `handleAnalyze` sets its error beside an earlier result. */
  lemma HandlersKeepExclusive(s: AppState, selection: Option<seq<SelectedFile>>, index: int,
                              service: ServiceCall -> ServiceOutcome, now: nat)
    requires Exclusive(s)
    ensures Exclusive(InitialState)
    ensures Exclusive(HandleFileChange(s, selection))
    ensures Exclusive(RemoveFile(s, index))
    ensures |s.files| > 0 || s.result.None? ==> Exclusive(HandleAnalyze(s, service, now).final)
  {
  }

  /** The guard's exception: after a result, removing every file and running
      the audit shows the upload prompt beside the old result. */
  lemma UploadPromptBesideStaleResult(s: AppState, service: ServiceCall -> ServiceOutcome, now: nat)
    requires |s.files| == 0 && s.result.Some?
    ensures !Exclusive(HandleAnalyze(s, service, now).final)
  {
  }

  /** `analyzeDocuments` seen through the awaited promise. */
  function GeminiBackend(apiKey: Option<string>, prompts: GeminiService.Prompts,
                         sdk: GeminiService.Request -> GeminiService.SdkOutcome): ServiceCall -> ServiceOutcome
  {
    (c: ServiceCall) =>
      match GeminiService.AnalyzeDocuments(apiKey, c.files, c.stage, prompts, sdk)
      case Threw(message) => Rejected(Some(message))
      case Returned(_, text) => Resolved(text)
  }

  /** With the real service the page shows an error only for a missing key;
      every SDK failure and an empty answer reach the page as a result. */
  lemma AuditFailuresShowAsResult(s: AppState, apiKey: Option<string>, prompts: GeminiService.Prompts,
                                  sdk: GeminiService.Request -> GeminiService.SdkOutcome, now: nat)
    requires |s.files| > 0 && s.isVerified
    ensures var final := HandleAnalyze(s, GeminiBackend(apiKey, prompts, sdk), now).final;
      && (final.error.Some? <==> !GeminiService.KeyPresent(apiKey))
      && (final.error.Some? ==> final.error.value == GeminiService.KeyNotFoundMessage)
      && (final.result.Some? ==>
            var a := GeminiService.AnalyzeDocuments(apiKey, s.files, s.stage, prompts, sdk);
            a.Returned? && final.result.value == AnalysisResult(a.text, now) && a.text != "")
  {
    if GeminiService.KeyPresent(apiKey) {
      GeminiService.AnalyzeResolvesEveryOutcome(apiKey, s.files, s.stage, prompts, sdk);
    }
  }
}
