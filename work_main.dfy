/** The request layer of the Work backend: the optional API key check, the WebSocket accept
    decision, the exception-to-answer wrapping, the dummy pipeline, and the two-event
    server-sent-events stream of `/api/chat`. */
module WorkMain {
  import opened Common
  import opened LangChain
  import PyStr
  import WorkPipeline

  /** `API_KEY = os.getenv("API_KEY")`: `None` when the variable is unset. */
  type ApiKey = Option<string>

  /** `verify_key(x_api_key)`: `None` when it returns, the exception when it raises. With no
      `API_KEY` every request passes; with one, exactly the requests whose key differs (a
      missing key included) get 401 "Invalid API key". */
  function VerifyKey(apiKey: ApiKey, xApiKey: Option<string>): (raised: Option<HttpException>)
    ensures raised.Some? <==> apiKey.Some? && xApiKey != apiKey
    ensures raised.Some? ==> raised.value == HttpException(Unauthorized, "Invalid API key")
  {
    if apiKey.None? then None
    else if xApiKey != apiKey then Some(HttpException(Unauthorized, "Invalid API key"))
    else None
  }

  /** The client key of a WebSocket: the "x-api-key" header `or` the "api_key" query parameter,
      so an empty header falls back to the query parameter. */
  function ClientKey(header: Option<string>, query: Option<string>): (key: Option<string>)
    ensures header.Some? && header.value != "" ==> key == header
    ensures (header.None? || header.value == "") ==> key == query
  {
    Or(header, query)
  }

  /** Close code 1008, "policy violation" (section 7.4.1 of RFC 6455). */
  const PolicyViolation: int := 1008

  /** What the WebSocket endpoint does before reading any message. */
  datatype Handshake = Accept | Close(code: int)

  /** The WebSocket key check: the connection is closed with 1008 exactly when `API_KEY` is set
      and the client's key differs from it; otherwise it is accepted. */
  function WebSocketHandshake(apiKey: ApiKey, header: Option<string>, query: Option<string>): (h: Handshake)
    ensures h.Close? <==> apiKey.Some? && ClientKey(header, query) != apiKey
    ensures h.Close? ==> h.code == PolicyViolation
  {
    if apiKey.Some? && ClientKey(header, query) != apiKey then Close(PolicyViolation) else Accept
  }

  /** A result dictionary of `rag.ask`, as the endpoints read it; a key it lacks is `None`.
      Each source is the `{"source": ...}` entry of one document. */
  datatype Reply = Reply(question: Option<string>, answer: Option<string>, sources: Option<seq<string>>)

  /** The answer an exception from `rag.ask` turns into. */
  function ErrorAnswer(e: PyError): (answer: string)
    ensures PyStr.EndsWith(answer, ErrorText(e))
    ensures PyStr.StartsWith(answer, "Error running pipeline: ")
    ensures |answer| == |"Error running pipeline: "| + |ErrorText(e)|
  {
    "Error running pipeline: " + ErrorText(e)
  }

  /** The text `DummyRAG.ask` answers with, before the question. */
  const DummyPrefix: string := "(Dummy) No RAG pipeline loaded. Here's a placeholder answer for: "

  /** `DummyRAG.ask(question)`: a placeholder answer that ends with the question, no sources,
      and no "question" key. */
  function DummyAsk(question: string): (r: Reply)
    ensures r.question.None? && r.sources == Some([])
    ensures r.answer.Some? && PyStr.EndsWith(r.answer.value, question)
    ensures r.answer.Some? && PyStr.StartsWith(r.answer.value, DummyPrefix)
  {
    Reply(None, Some(DummyPrefix + question), Some([]))
  }

  /** The `rag` object of the module: the Work pipeline, or `DummyRAG` when that pipeline
      could not be imported or constructed. */
  datatype Backend = Pipeline(rag: WorkPipeline.RAGPipeline) | Dummy

  /** `rag.ask(question)`. `response` is what the pipeline's QA chain returns or raises; the
      dummy never calls a chain and never raises. The pipeline raises exactly when its chain
      does, and otherwise its dictionary holds all three keys, so the endpoints' defaults
      never apply to it. */
  function RagAsk(backend: Backend, question: string, response: Result<ChainResponse, PyError>)
    : (r: Result<Reply, PyError>)
    reads if backend.Pipeline? then {backend.rag} else {}
    ensures backend.Dummy? ==> r == Ok(DummyAsk(question))
    ensures backend.Pipeline? ==> (r.Err? <==> backend.rag.qaChain.Some? && response.Err?)
    ensures backend.Pipeline? && r.Ok? ==>
      r.value.question == Some(question) && r.value.answer.Some? && r.value.sources.Some?
  {
    match backend
    case Dummy => Ok(DummyAsk(question))
    case Pipeline(rag) =>
      match rag.Ask(question, response)
      case Err(e) => Err(e)
      case Ok(a) => Ok(Reply(Some(a.question), Some(a.answer), Some(a.sources)))
  }

  /** The reply the WebSocket sends for one question: the pipeline's result, or, when it
      raises, the question with the error answer and no sources. */
  function WebSocketReply(question: string, asked: Result<Reply, PyError>): (r: Reply)
    ensures asked.Ok? ==> r == asked.value
    ensures asked.Err? ==>
      r.question == Some(question) && r.answer == Some(ErrorAnswer(asked.error)) && r.sources == Some([])
  {
    match asked
    case Ok(reply) => reply
    case Err(e) => Reply(Some(question), Some(ErrorAnswer(e)), Some([]))
  }

  /** The single JSON event of `/api/chat`, by field. */
  datatype SsePayload = SsePayload(kind: string, term: string, definition: string, sources: seq<string>)

  /** `chat_sse(payload, x_api_key)` up to the event it streams: the key is checked before the
      pipeline runs; an exception from the pipeline becomes the error answer with no sources
      (and no question); a missing answer or source list defaults to "" or []. The term and
      the definition are the stripped question and answer. */
  function ChatSse(apiKey: ApiKey, xApiKey: Option<string>, question: string, asked: Result<Reply, PyError>)
    : (r: Result<SsePayload, HttpException>)
    ensures r.Err? <==> VerifyKey(apiKey, xApiKey).Some?
    ensures r.Err? ==> r.error == HttpException(Unauthorized, "Invalid API key")
    ensures r.Ok? ==> r.value.kind == "definition" && r.value.term == PyStr.Strip(question)
    ensures r.Ok? && asked.Ok? ==>
      && r.value.definition == PyStr.Strip(asked.value.answer.GetOr(""))
      && r.value.sources == asked.value.sources.GetOr([])
    ensures r.Ok? && asked.Err? ==>
      r.value.definition == PyStr.Strip(ErrorAnswer(asked.error)) && r.value.sources == []
  {
    var raised := VerifyKey(apiKey, xApiKey);
    if raised.Some? then Err(raised.value)
    else
      var result := match asked
        case Ok(reply) => reply
        case Err(e) => Reply(None, Some(ErrorAnswer(e)), Some([]));
      var answer := result.answer.GetOr("");
      var sources := result.sources.GetOr([]);
      Ok(SsePayload("definition", PyStr.Strip(question), PyStr.Strip(answer), sources))
  }

  /** The term and the definition of the event carry no surrounding whitespace. */
  lemma PayloadIsTrimmed(apiKey: ApiKey, xApiKey: Option<string>, question: string, asked: Result<Reply, PyError>)
    requires VerifyKey(apiKey, xApiKey).None?
    ensures var p := ChatSse(apiKey, xApiKey, question, asked).value;
      PyStr.Strip(p.term) == p.term && PyStr.Strip(p.definition) == p.definition
  {
    var p := ChatSse(apiKey, xApiKey, question, asked).value;
    PyStr.StripIdempotent(question);
    match asked {
      case Ok(reply) => PyStr.StripIdempotent(reply.answer.GetOr(""));
      case Err(e) => PyStr.StripIdempotent(ErrorAnswer(e));
    }
  }

  /** One server-sent event carrying `data` in a single "data" field, ended by a blank line
      (section 9.2 of the WHATWG HTML Living Standard). */
  function Frame(data: string): string {
    "data: " + data + "\n\n"
  }

  /** The data of the closing event. */
  const Done: string := "[DONE]"

  /** `event_stream()`: the payload's JSON text in one event, then the closing event. */
  function EventStream(payloadJson: string): (frames: seq<string>)
    ensures |frames| == 2 && frames[1] == "data: [DONE]\n\n"
    ensures PyStr.StartsWith(frames[0], "data: ") && PyStr.EndsWith(frames[0], "\n\n")
  {
    [Frame(payloadJson), Frame(Done)]
  }

  /** The text of a stream that sends one event per entry of `ds`. */
  function Encode(ds: seq<string>): string {
    if ds == [] then "" else Frame(ds[0]) + Encode(ds[1..])
  }

  /** The index of the first line feed in `s` at or after `i`, or `|s|` when there is none. */
  function LineEnd(s: string, i: nat): (j: nat)
    requires i <= |s|
    ensures i <= j <= |s| && (j < |s| ==> s[j] == '\n')
    ensures forall k :: i <= k < j ==> s[k] != '\n'
    decreases |s| - i
  {
    if i == |s| || s[i] == '\n' then i else LineEnd(s, i + 1)
  }

  /** How an event-stream reader recovers the data of a stream made of single-line "data"
      events: each event is "data: ", its data up to the line end, and a blank line. */
  function ParseFrames(s: string): Option<seq<string>>
    decreases |s|
  {
    if s == [] then Some([])
    else if |s| < 6 || s[..6] != "data: " then None
    else
      var j := LineEnd(s, 6);
      if j + 1 < |s| && s[j + 1] == '\n' then
        match ParseFrames(s[j + 2..])
        case None => None
        case Some(rest) => Some([s[6..j]] + rest)
      else None
  }

  /** In a frame followed by more text, the data runs from after "data: " to the first line
      feed, which a second one follows. */
  lemma FrameLineEnd(d: string, tail: string)
    requires '\n' !in d
    ensures var s := Frame(d) + tail;
      && |s| >= 6 && s[..6] == "data: "
      && LineEnd(s, 6) == 6 + |d| && 6 + |d| + 1 < |s| && s[6 + |d| + 1] == '\n'
      && s[6..6 + |d|] == d && s[6 + |d| + 2..] == tail
  {
    var s := Frame(d) + tail;
    assert s == "data: " + d + "\n\n" + tail;
    forall k | 6 <= k < 6 + |d| ensures s[k] != '\n' {
      assert s[k] == d[k - 6];
    }
    assert s[6 + |d|] == '\n';
  }

  /** A reader takes one event off the front of a stream and goes on with the rest. */
  lemma ParseFrame(d: string, tail: string)
    requires '\n' !in d
    ensures ParseFrames(Frame(d) + tail) ==
      if ParseFrames(tail).Some? then Some([d] + ParseFrames(tail).value) else None
  {
    FrameLineEnd(d, tail);
  }

  /** A reader gets back every event's data, in order, provided no data holds a line feed. */
  lemma {:induction false} ParseEncode(ds: seq<string>)
    requires forall k :: 0 <= k < |ds| ==> '\n' !in ds[k]
    ensures ParseFrames(Encode(ds)) == Some(ds)
  {
    if ds != [] {
      ParseFrame(ds[0], Encode(ds[1..]));
      ParseEncode(ds[1..]);
      assert [ds[0]] + ds[1..] == ds;
    }
  }

  /** The stream of `/api/chat` reads back as the payload's JSON text and then "[DONE]", since
      `json.dumps` escapes every line feed. */
  lemma EventStreamReadsBack(payloadJson: string)
    requires '\n' !in payloadJson
    ensures ParseFrames(EventStream(payloadJson)[0] + EventStream(payloadJson)[1]) == Some([payloadJson, Done])
  {
    assert [payloadJson, Done][1..] == [Done] && [Done][1..] == [];
    assert Encode([Done]) == Frame(Done) + Encode([]);
    assert Frame(Done) + "" == Frame(Done);
    assert Encode([payloadJson, Done]) == Frame(payloadJson) + Encode([Done]);
    assert EventStream(payloadJson)[0] + EventStream(payloadJson)[1] == Encode([payloadJson, Done]);
    ParseEncode([payloadJson, Done]);
  }
}
