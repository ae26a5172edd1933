/** The analysis client (services/geminiService.ts): one request to the external
    model service, whose failures all surface as one generic message, and the
    conversion of a FileReader data URL into the base64 payload it carries. */
module GeminiService {
  import opened Wrappers
  import opened Types
  import Json

  const MISSING_KEY_MESSAGE: string := "Chave da API não configurada."
  const NO_TEXT_MESSAGE: string := "A IA não retornou texto."
  const GENERIC_FAILURE_MESSAGE: string :=
    "Falha ao processar o documento. Verifique se é um arquivo jurídico válido."
  const READ_FAILURE_MESSAGE: string := "Failed to read file"

  /** The part of the outgoing request that depends on the caller: the inline file
      data and its MIME type. The model name, instruction text and response schema
      are fixed. `data` is None when the caller passes `undefined`. */
  datatype Request = Request(data: Option<string>, mimeType: string)

  /** What the external service does with a request: it throws, or it answers with
      a response whose `text` may be missing. */
  datatype Reply = Throws(cause: Exception) | Answered(text: Option<string>)

  /** One call of analyzeDocument: the requests it issued and its outcome. */
  datatype Call = Call(requests: seq<Request>, outcome: Result<AnalysisResult, Exception>)

  /** What the body of the `try` block throws. */
  datatype Thrown = ServiceFailed(cause: Exception) | NoText | SyntaxError

  /** `process.env.API_KEY` is truthy. */
  predicate HasApiKey(apiKey: Option<string>) {
    apiKey.Some? && apiKey.value != ""
  }

  /** The `try` block: the service's reply is read as text, which must be present
      and non-empty, and parsed as the result. */
  function RequestAndParse(reply: Reply): (r: Result<AnalysisResult, Thrown>)
    ensures r.Success? <==>
      reply.Answered? && reply.text.Some? && reply.text.value != "" &&
      Json.DecodeResult(reply.text.value).Some?
    ensures r.Success? ==> Json.DecodeResult(reply.text.value) == Some(r.value)
    ensures reply.Throws? ==> r == Failure(ServiceFailed(reply.cause))
    ensures reply.Answered? && (reply.text.None? || reply.text.value == "") ==> r == Failure(NoText)
  {
    match reply
    case Throws(cause) => Failure(ServiceFailed(cause))
    case Answered(text) =>
      if text.None? || text.value == "" then Failure(NoText)
      else
        match Json.DecodeResult(text.value)
        case None => Failure(SyntaxError)
        case Some(parsed) => Success(parsed)
  }

  /** `analyzeDocument(fileBase64, mimeType)`, given the configured key and the
      service's behaviour. Without a key it fails with the configuration message and
      sends nothing; otherwise it sends exactly one request carrying the data and the
      MIME type as given, and every failure after that becomes the generic message. */
  function AnalyzeDocument(apiKey: Option<string>, service: Request -> Reply,
                           fileBase64: Option<string>, mimeType: string): (c: Call)
    ensures !HasApiKey(apiKey) ==>
      c.requests == [] && c.outcome == Failure(Exception(Some(MISSING_KEY_MESSAGE)))
    ensures HasApiKey(apiKey) ==> c.requests == [Request(fileBase64, mimeType)]
    ensures HasApiKey(apiKey) && c.outcome.Failure? ==>
      c.outcome == Failure(Exception(Some(GENERIC_FAILURE_MESSAGE)))
    ensures c.outcome.Success? <==>
      HasApiKey(apiKey) && RequestAndParse(service(Request(fileBase64, mimeType))).Success?
    ensures c.outcome.Success? ==>
      c.outcome.value == RequestAndParse(service(Request(fileBase64, mimeType))).value
  {
    if !HasApiKey(apiKey) then
      Call([], Failure(Exception(Some(MISSING_KEY_MESSAGE))))
    else
      var request := Request(fileBase64, mimeType);
      match RequestAndParse(service(request))
      case Success(parsed) => Call([request], Success(parsed))
      case Failure(_) => Call([request], Failure(Exception(Some(GENERIC_FAILURE_MESSAGE))))
  }

  /** A caller only ever sees one of two messages; in particular the "no text"
      message thrown inside the `try` block never reaches it. */
  lemma FailureMessages(apiKey: Option<string>, service: Request -> Reply,
                        fileBase64: Option<string>, mimeType: string)
    ensures var c := AnalyzeDocument(apiKey, service, fileBase64, mimeType);
      c.outcome.Failure? ==>
        c.outcome.error.message == Some(MISSING_KEY_MESSAGE) ||
        c.outcome.error.message == Some(GENERIC_FAILURE_MESSAGE)
    ensures var c := AnalyzeDocument(apiKey, service, fileBase64, mimeType);
      c.outcome.Failure? ==> c.outcome.error.message != Some(NO_TEXT_MESSAGE)
  {
  }

  /** A reply whose text encodes a result gives back exactly that result, whatever
      the length of the summary or the number of facts: nothing is checked beyond
      the shape. */
  lemma AnswerReturnedAsIs(apiKey: Option<string>, service: Request -> Reply,
                           fileBase64: Option<string>, mimeType: string, result: AnalysisResult)
    requires HasApiKey(apiKey)
    requires service(Request(fileBase64, mimeType)) == Answered(Some(Json.EncodeResult(result)))
    ensures AnalyzeDocument(apiKey, service, fileBase64, mimeType).outcome == Success(result)
  {
    Json.ResultDocumentRoundTrip(result);
  }

  /** A reply with no text, or empty text, fails with the generic message and not
      with the message that reports it. */
  lemma NoTextIsGeneric(apiKey: Option<string>, service: Request -> Reply,
                        fileBase64: Option<string>, mimeType: string)
    requires HasApiKey(apiKey)
    requires service(Request(fileBase64, mimeType)) in {Answered(None), Answered(Some(""))}
    ensures RequestAndParse(service(Request(fileBase64, mimeType))) == Failure(NoText)
    ensures AnalyzeDocument(apiKey, service, fileBase64, mimeType).outcome ==
      Failure(Exception(Some(GENERIC_FAILURE_MESSAGE)))
  {
  }

  // ---------------------------------------------------------------------------
  // fileToBase64

  /** JavaScript's `s.split(sep)` for a one-character separator. */
  function Split(s: string, sep: char): (parts: seq<string>)
    ensures |parts| >= 1
    ensures forall i :: 0 <= i < |parts| ==> sep !in parts[i]
    ensures Join(parts, sep) == s
  {
    if s == [] then [[]]
    else
      var tail := Split(s[1..], sep);
      if s[0] == sep then [[]] + tail
      else [[s[0]] + tail[0]] + tail[1..]
  }

  /** The inverse of Split: the parts with the separator between them. */
  function Join(parts: seq<string>, sep: char): string
    requires |parts| >= 1
  {
    if |parts| == 1 then parts[0] else parts[0] + [sep] + Join(parts[1..], sep)
  }

  /** `s.split(',')[1]`: None (JavaScript's `undefined`) when `s` has no comma. */
  function SecondSegment(s: string): (r: Option<string>)
    ensures r.Some? <==> ',' in s
    ensures r.Some? ==> ',' !in r.value
  {
    var parts := Split(s, ',');
    if |parts| >= 2 then Some(parts[1])
    else
      assert Join(parts, ',') == parts[0];
      None
  }

  lemma {:induction false} SplitWithoutSeparator(s: string, sep: char)
    requires sep !in s
    ensures Split(s, sep) == [s]
  {
    if s != [] {
      SplitWithoutSeparator(s[1..], sep);
      assert [s[0]] + s[1..] == s;
    }
  }

  lemma {:induction false} SplitAfterPrefix(a: string, b: string, sep: char)
    requires sep !in a
    ensures Split(a + [sep] + b, sep) == [a] + Split(b, sep)
  {
    if a == [] {
      assert a + [sep] + b == [sep] + b;
      assert ([sep] + b)[1..] == b;
    } else {
      var s := a + [sep] + b;
      assert s[0] == a[0] && s[1..] == a[1..] + [sep] + b;
      SplitAfterPrefix(a[1..], b, sep);
      assert [a[0]] + a[1..] == a;
    }
  }

  /** The segment `split(',')[1]` picks: for `a,b` followed by nothing or by a
      further comma, with no comma in `a` or `b`, it is `b`. */
  lemma SecondSegmentOf(a: string, b: string, tail: string)
    requires ',' !in a && ',' !in b
    requires tail == [] || tail[0] == ','
    ensures SecondSegment(a + [','] + b + tail) == Some(b)
  {
    assert a + [','] + b + tail == a + [','] + (b + tail);
    SplitAfterPrefix(a, b + tail, ',');
    if tail == [] {
      assert b + tail == b;
      SplitWithoutSeparator(b, ',');
    } else {
      assert b + tail == b + [','] + tail[1..];
      SplitAfterPrefix(b, tail[1..], ',');
    }
  }

  /** A data URL of the shape FileReader writes, `data:<mime>;base64,<payload>`,
      gives back its payload: the base64 alphabet has no comma, and neither has a
      MIME type. */
  lemma DataUrlPayload(mimeType: string, payload: string)
    requires ',' !in mimeType && ',' !in payload
    ensures SecondSegment("data:" + mimeType + ";base64," + payload) == Some(payload)
  {
    var prefix := "data:" + mimeType + ";base64";
    assert "data:" + mimeType + ";base64," + payload == prefix + [','] + payload + [];
    assert ',' !in prefix by {
      assert prefix == "data:" + mimeType + ";base64";
    }
    SecondSegmentOf(prefix, payload, []);
  }

  /** What the FileReader reports once `readAsDataURL` ends: `onload` with a string
      result, `onload` with a result of another type, or `onerror` with an event that
      has no `message`. */
  datatype ReaderEvent = LoadedText(dataUrl: string) | LoadedOther | ReadError

  /** `fileToBase64`: the promise's outcome. */
  function FileToBase64(event: ReaderEvent): (r: Result<Option<string>, Exception>)
    ensures r.Success? <==> event.LoadedText?
    ensures r.Success? ==> r.value == SecondSegment(event.dataUrl)
    ensures r.Success? ==> (r.value.Some? <==> ',' in event.dataUrl)
    ensures event.LoadedOther? ==> r == Failure(Exception(Some(READ_FAILURE_MESSAGE)))
    ensures event.ReadError? ==> r.Failure? && r.error.message.None?
  {
    match event
    case LoadedText(dataUrl) => Success(SecondSegment(dataUrl))
    case LoadedOther => Failure(Exception(Some(READ_FAILURE_MESSAGE)))
    case ReadError => Failure(Exception(None))
  }
}
