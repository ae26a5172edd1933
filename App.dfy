/** The top-level component (App.tsx): the view state, the file-selection flow that
    reads the file, analyses it, records it and updates the view, and the recall
    of an earlier result from the history list. */
module App {
  import opened Wrappers
  import opened Types
  import StorageService
  import GeminiService
  import Json

  const UNKNOWN_ERROR_MESSAGE: string := "Ocorreu um erro desconhecido durante a análise."

  /** `err.message || fallback`: the thrown error's message, or the fallback when
      that message is missing or empty. Either way the banner is never blank. */
  function DisplayedMessage(e: Exception): (m: string)
    ensures m != ""
    ensures e.message.Some? && e.message.value != "" ==> m == e.message.value
    ensures e.message.None? || e.message.value == "" ==> m == UNKNOWN_ERROR_MESSAGE
  {
    if e.message.Some? && e.message.value != "" then e.message.value else UNKNOWN_ERROR_MESSAGE
  }

  /** The two awaited calls inside the `try` block: `fileToBase64(file)`, then
      `analyzeDocument(base64Data, file.type)`. It succeeds exactly when the file
      reads as text, a key is configured and the service's reply to the payload
      parses, and then gives the parsed reply. A failure carries one of four known
      messages, or none at all when the reader itself failed. */
  function AnalyzeFile(file: File, reader: GeminiService.ReaderEvent, apiKey: Option<string>,
                       service: GeminiService.Request -> GeminiService.Reply): (r: Result<AnalysisResult, Exception>)
    ensures r.Success? <==>
      && reader.LoadedText? && GeminiService.HasApiKey(apiKey)
      && GeminiService.RequestAndParse(
           service(GeminiService.Request(GeminiService.SecondSegment(reader.dataUrl), file.mimeType))).Success?
    ensures r.Success? ==>
      r.value == GeminiService.RequestAndParse(
        service(GeminiService.Request(GeminiService.SecondSegment(reader.dataUrl), file.mimeType))).value
    ensures r.Failure? ==>
      r.error.message in {None, Some(GeminiService.READ_FAILURE_MESSAGE),
                          Some(GeminiService.MISSING_KEY_MESSAGE), Some(GeminiService.GENERIC_FAILURE_MESSAGE)}
    ensures reader.ReadError? ==> r.Failure? && r.error.message.None?
    ensures reader.LoadedOther? ==> r == Failure(Exception(Some(GeminiService.READ_FAILURE_MESSAGE)))
    ensures reader.LoadedText? && !GeminiService.HasApiKey(apiKey) ==>
      r == Failure(Exception(Some(GeminiService.MISSING_KEY_MESSAGE)))
  {
    match GeminiService.FileToBase64(reader)
    case Failure(e) => Failure(e)
    case Success(base64Data) => GeminiService.AnalyzeDocument(apiKey, service, base64Data, file.mimeType).outcome
  }

  /** End to end: a file read as `data:<type>;base64,<payload>` sends exactly that
      payload and type to the service, and the result the service encodes comes back
      unchanged. */
  lemma AnalyzeFileReturnsServiceResult(file: File, payload: string, apiKey: Option<string>,
                                        service: GeminiService.Request -> GeminiService.Reply,
                                        result: AnalysisResult)
    requires ',' !in file.mimeType && ',' !in payload
    requires GeminiService.HasApiKey(apiKey)
    requires service(GeminiService.Request(Some(payload), file.mimeType)) ==
             GeminiService.Answered(Some(Json.EncodeResult(result)))
    ensures var dataUrl := "data:" + file.mimeType + ";base64," + payload;
      GeminiService.AnalyzeDocument(apiKey, service,
        GeminiService.FileToBase64(GeminiService.LoadedText(dataUrl)).value, file.mimeType).requests ==
        [GeminiService.Request(Some(payload), file.mimeType)]
    ensures AnalyzeFile(file, GeminiService.LoadedText("data:" + file.mimeType + ";base64," + payload),
                        apiKey, service) == Success(result)
  {
    GeminiService.DataUrlPayload(file.mimeType, payload);
    GeminiService.AnswerReturnedAsIs(apiKey, service, Some(payload), file.mimeType, result);
  }

  /** A service that throws shows the generic message, not the service's own. */
  lemma ServiceErrorShowsGenericMessage(file: File, dataUrl: string, apiKey: Option<string>,
                                        service: GeminiService.Request -> GeminiService.Reply)
    requires GeminiService.HasApiKey(apiKey)
    requires service(GeminiService.Request(GeminiService.SecondSegment(dataUrl), file.mimeType)).Throws?
    ensures var r := AnalyzeFile(file, GeminiService.LoadedText(dataUrl), apiKey, service);
      r.Failure? && DisplayedMessage(r.error) == GeminiService.GENERIC_FAILURE_MESSAGE
  {
  }

  /** A FileReader error event has no message, so the fallback is shown. */
  lemma ReadErrorShowsFallback(file: File, apiKey: Option<string>,
                               service: GeminiService.Request -> GeminiService.Reply)
    ensures var r := AnalyzeFile(file, GeminiService.ReadError, apiKey, service);
      r.Failure? && DisplayedMessage(r.error) == UNKNOWN_ERROR_MESSAGE
  {
  }

  /** The view state of the component. */
  class AppState {
    var status: ProcessingStatus
    var result: Option<AnalysisResult>
    var history: seq<AnalysisRecord>
    var errorMsg: Option<string>

    /** A success always has a result to show; while processing none is shown. */
    ghost predicate Valid()
      reads this
    {
      (status == Succeeded ==> result.Some?) && (status == Processing ==> result.None?)
    }

    /** The in-memory history is exactly what a readable store holds. */
    ghost predicate InSync(storage: StorageService.LocalStorage)
      reads this, storage
    {
      StorageService.StoredList(storage.items).Some? &&
      history == StorageService.LoadedRecords(storage.items)
    }

    /** The `useState` initial values. */
    constructor ()
      ensures Valid()
      ensures status == Idle && result == None && history == [] && errorMsg == None
    {
      status := Idle;
      result := None;
      history := [];
      errorMsg := None;
    }

    /** The mount effect: the history is loaded from the store. */
    method LoadHistory(storage: StorageService.LocalStorage)
      requires Valid()
      modifies this
      ensures Valid()
      ensures history == StorageService.LoadedRecords(storage.items)
      ensures StorageService.StoredList(storage.items).Some? ==> InSync(storage)
      ensures status == old(status) && result == old(result) && errorMsg == old(errorMsg)
    {
      history := StorageService.GetAllRecords(storage);
    }

    /** The synchronous start of `handleFileSelect`, whatever the prior state. */
    method BeginAnalysis()
      modifies this
      ensures Valid()
      ensures status == Processing && result == None && errorMsg == None
      ensures history == old(history)
    {
      status := Processing;
      result := None;
      errorMsg := None;
    }

    /** The rest of `handleFileSelect`, once the awaited calls have settled. The
        fresh id (`crypto.randomUUID()`, which may throw) and the timestamp are
        parameters. On success the result is shown, the record is saved and is put
        at the front of the history whether or not the save took; on failure the
        message is shown and neither history nor store changes. */
    method CompleteAnalysis(file: File, reader: GeminiService.ReaderEvent, apiKey: Option<string>,
                            service: GeminiService.Request -> GeminiService.Reply,
                            newId: Result<string, Exception>, timestamp: string,
                            storage: StorageService.LocalStorage)
      modifies this, storage
      ensures Valid()
      ensures var outcome := AnalyzeFile(file, reader, apiKey, service);
        outcome.Failure? ==>
          && status == Failed && result == old(result)
          && errorMsg == Some(DisplayedMessage(outcome.error))
          && history == old(history) && storage.items == old(storage.items)
      ensures var outcome := AnalyzeFile(file, reader, apiKey, service);
        outcome.Success? && newId.Failure? ==>
          && status == Failed && result == Some(outcome.value)
          && errorMsg == Some(DisplayedMessage(newId.error))
          && history == old(history) && storage.items == old(storage.items)
      ensures var outcome := AnalyzeFile(file, reader, apiKey, service);
        outcome.Success? && newId.Success? ==>
          var record := AnalysisRecord(newId.value, timestamp, file.name, outcome.value);
          && status == Succeeded && result == Some(outcome.value) && errorMsg == old(errorMsg)
          && history == [record] + old(history)
          && storage.items == StorageService.SavedItems(old(storage.items), record)
      ensures old(InSync(storage)) ==> InSync(storage)
    {
      var base64Data := GeminiService.FileToBase64(reader);
      if base64Data.Failure? {
        status := Failed;
        errorMsg := Some(DisplayedMessage(base64Data.error));
        return;
      }
      var analysis := GeminiService.AnalyzeDocument(apiKey, service, base64Data.value, file.mimeType).outcome;
      if analysis.Failure? {
        status := Failed;
        errorMsg := Some(DisplayedMessage(analysis.error));
        return;
      }
      result := Some(analysis.value);
      status := Succeeded;
      if newId.Failure? {
        status := Failed;
        errorMsg := Some(DisplayedMessage(newId.error));
        return;
      }
      var record := AnalysisRecord(newId.value, timestamp, file.name, analysis.value);
      StorageService.SaveThenLoad(storage.items, record);
      StorageService.SaveRecord(storage, record);
      history := [record] + history;
    }

    /** `handleFileSelect` from start to end. */
    method HandleFileSelect(file: File, reader: GeminiService.ReaderEvent, apiKey: Option<string>,
                            service: GeminiService.Request -> GeminiService.Reply,
                            newId: Result<string, Exception>, timestamp: string,
                            storage: StorageService.LocalStorage)
      modifies this, storage
      ensures Valid()
      ensures var outcome := AnalyzeFile(file, reader, apiKey, service);
        outcome.Failure? ==>
          && status == Failed && result == None
          && errorMsg == Some(DisplayedMessage(outcome.error))
          && history == old(history) && storage.items == old(storage.items)
      ensures var outcome := AnalyzeFile(file, reader, apiKey, service);
        outcome.Success? && newId.Failure? ==>
          && status == Failed && result == Some(outcome.value)
          && errorMsg == Some(DisplayedMessage(newId.error))
          && history == old(history) && storage.items == old(storage.items)
      ensures var outcome := AnalyzeFile(file, reader, apiKey, service);
        outcome.Success? && newId.Success? ==>
          var record := AnalysisRecord(newId.value, timestamp, file.name, outcome.value);
          && status == Succeeded && result == Some(outcome.value) && errorMsg == None
          && history == [record] + old(history)
          && storage.items == StorageService.SavedItems(old(storage.items), record)
      ensures old(InSync(storage)) ==> InSync(storage)
    {
      BeginAnalysis();
      CompleteAnalysis(file, reader, apiKey, service, newId, timestamp, storage);
    }

    /** `handleHistoryClick`: shows the stored result without contacting the
        service; the history and the error message stay as they are. */
    method HandleHistoryClick(record: AnalysisRecord)
      modifies this
      ensures Valid()
      ensures result == Some(record.result) && status == Succeeded
      ensures history == old(history) && errorMsg == old(errorMsg)
    {
      result := Some(record.result);
      status := Succeeded;
    }
  }
}
