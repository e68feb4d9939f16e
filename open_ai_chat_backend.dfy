/**
 * The OpenAI chat-completions backend: a fixed URL, an always-present bearer
 * header, the full body in HTTP errors, and the same "last content member"
 * reading of the reply as the vLLM client.
 */
module OpenAiChatBackend {
  import opened Wrappers
  import opened Text
  import opened ChatTypes
  import HttpExchange
  import opened ChatMessageSanitizer
  import opened VllmStreamDeltaParser
  import opened ContentRegex

  const Url: string := "https://api.openai.com/v1/chat/completions"
  const ParseFailed: string := "OpenAI response parse failed."
  const StreamNotImplemented: string := "OpenAI streaming not implemented. Use non-stream + typewriter."

  /** One serializable message of the request. */
  datatype OpenAiMsg = OpenAiMsg(role: string, content: string)

  /** The request object handed to JsonUtility.ToJson; messages is the array's contents. */
  datatype OpenAiRequest = OpenAiRequest(model: string, messages: seq<OpenAiMsg>, temperature: real, stream: bool)

  /** The backend's readonly fields, as the constructor stores them. */
  datatype Backend = Backend(apiKey: string, model: string, temperature: real)

  /** The wire messages for a message list, index by index. */
  function AsOpenAiMsgs(msgs: seq<ChatMessage>): seq<OpenAiMsg>
  {
    if msgs == [] then [] else [OpenAiMsg(msgs[0].role, msgs[0].content)] + AsOpenAiMsgs(msgs[1..])
  }

  /** The chat messages a list of wire messages carries. */
  function FromOpenAiMsgs(wire: seq<OpenAiMsg>): seq<ChatMessage>
  {
    if wire == [] then [] else [ChatMessage(wire[0].role, wire[0].content)] + FromOpenAiMsgs(wire[1..])
  }

  /** AsOpenAiMsgs keeps length, order, role and content. */
  lemma {:induction false} AsOpenAiMsgsSpec(msgs: seq<ChatMessage>)
    ensures |AsOpenAiMsgs(msgs)| == |msgs|
    ensures forall i :: 0 <= i < |msgs| ==>
              AsOpenAiMsgs(msgs)[i].role == msgs[i].role && AsOpenAiMsgs(msgs)[i].content == msgs[i].content
  {
    if msgs != [] {
      AsOpenAiMsgsSpec(msgs[1..]);
      var w := AsOpenAiMsgs(msgs);
      assert w[1..] == AsOpenAiMsgs(msgs[1..]);
      forall i | 1 <= i < |msgs| ensures w[i] == AsOpenAiMsgs(msgs[1..])[i - 1] {
      }
    }
  }

  /** Converting to wire messages loses nothing. */
  lemma {:induction false} OpenAiMsgsRoundTrip(msgs: seq<ChatMessage>)
    ensures FromOpenAiMsgs(AsOpenAiMsgs(msgs)) == msgs
  {
    if msgs != [] {
      var w := AsOpenAiMsgs(msgs);
      assert w[0] == OpenAiMsg(msgs[0].role, msgs[0].content);
      assert w[1..] == AsOpenAiMsgs(msgs[1..]);
      OpenAiMsgsRoundTrip(msgs[1..]);
      assert msgs == [msgs[0]] + msgs[1..];
    }
  }

  /** ToOpenAiMsgs: a new array filled index by index. */
  method ToOpenAiMsgs(msgs: seq<ChatMessage>) returns (arr: array<OpenAiMsg>)
    ensures fresh(arr)
    ensures arr[..] == AsOpenAiMsgs(msgs)
  {
    AsOpenAiMsgsSpec(msgs);
    arr := new OpenAiMsg[|msgs|](_ => OpenAiMsg("", ""));
    for i := 0 to |msgs|
      invariant forall k :: 0 <= k < i ==> arr[k] == AsOpenAiMsgs(msgs)[k]
    {
      arr[i] := OpenAiMsg(msgs[i].role, msgs[i].content);
    }
  }

  /** Content-Type, then Authorization with whatever key was configured. */
  function RequestHeaders(apiKey: string): seq<HttpExchange.Header>
  {
    [HttpExchange.JsonContentType, HttpExchange.Header("Authorization", "Bearer " + apiKey)]
  }

  /** The POST ChatOnce sends: every message list is sent, the empty one included. */
  function RequestFor(b: Backend, messages: seq<ChatMessage>): HttpExchange.Post<OpenAiRequest>
  {
    HttpExchange.Post(Url, RequestHeaders(b.apiKey),
      OpenAiRequest(b.model, AsOpenAiMsgs(Sanitized(messages)), b.temperature, false))
  }

  /** The onError text of a failed request: status code, error, and the whole body. */
  function HttpErrorText(r: HttpExchange.Response): string
  {
    "OpenAI HTTP " + IntToString(r.responseCode) + ": " + r.error + "\n" + r.body
  }

  /** How a response becomes the call's outcome. */
  function OutcomeOf(r: HttpExchange.Response): ChatOutcome
  {
    if HttpExchange.IsTransportError(r) then Failure(HttpErrorText(r))
    else
      match LastContent(r.body)
      case Some(t) => if t == [] then Failure(ParseFailed) else Success(t)
      case None => Failure(ParseFailed)
  }

  /** ExtractLastContent: the decoded group of the last match, None when nothing matches. */
  method ExtractLastContent(body: string) returns (content: Option<string>)
    ensures content == LastContent(body)
  {
    var matches := MatchesFrom(body, 0);
    var last: Option<Span> := None;
    for i := 0 to |matches|
      invariant last == LastOf(matches[..i])
    {
      last := Some(matches[i]);
    }
    assert matches[..|matches|] == matches;
    if last.None? {
      return None;
    }
    var group := body[last.value.start..last.value.end];
    var text := JsonStringUnescape(group);
    content := Some(text);
  }

  /**
   * ChatOnce, with the network's answer as the input `response`: the request
   * it sends and the callback it runs.
   */
  method ChatOnce(b: Backend, messages: seq<ChatMessage>, response: HttpExchange.Response)
      returns (sent: HttpExchange.Post<OpenAiRequest>, outcome: ChatOutcome)
    ensures sent == RequestFor(b, messages)
    ensures outcome == OutcomeOf(response)
  {
    var sanitized := Sanitize(messages);
    var wire := ToOpenAiMsgs(sanitized);
    sent := HttpExchange.Post(Url, RequestHeaders(b.apiKey), OpenAiRequest(b.model, wire[..], b.temperature, false));
    if HttpExchange.IsTransportError(response) {
      return sent, Failure(HttpErrorText(response));
    }
    var content := ExtractLastContent(response.body);
    if content.None? || content.value == [] {
      return sent, Failure(ParseFailed);
    }
    outcome := Success(content.value);
  }

  /** ChatStream: onError with a fixed message; no delta, no completion, no request. */
  function ChatStream(b: Backend, messages: seq<ChatMessage>): (r: StreamOutcome)
    ensures r.deltas == [] && !r.completed && r.error == Some(StreamNotImplemented)
  {
    StreamOutcome([], false, Some(StreamNotImplemented))
  }

  /** The request goes to the fixed URL with the sanitized messages, index by
      index, the configured model and temperature, and stream off; the empty
      list is sent as an empty array. */
  lemma RequestContents(b: Backend, messages: seq<ChatMessage>)
    ensures var p := RequestFor(b, messages);
      && p.url == Url && FromOpenAiMsgs(p.payload.messages) == Sanitized(messages)
      && p.payload.model == b.model && p.payload.temperature == b.temperature && !p.payload.stream
    ensures messages == [] ==> RequestFor(b, messages).payload.messages == []
  {
    OpenAiMsgsRoundTrip(Sanitized(messages));
    if messages == [] {
      assert Sanitized(messages) == [];
    }
  }

  /** The Authorization header is set whatever the key, even an empty one. */
  lemma AuthorizationAlwaysSent(b: Backend, messages: seq<ChatMessage>)
    ensures HttpExchange.Lookup(RequestFor(b, messages).headers, "Authorization") == Some("Bearer " + b.apiKey)
    ensures HttpExchange.Lookup(RequestFor(b, messages).headers, "Content-Type") == Some("application/json")
  {
    var h := RequestHeaders(b.apiKey);
    assert h[1..][0].name == "Authorization";
  }

  /** A failed request reports the status code and error, and ends with the
      untruncated body. */
  lemma HttpErrorReported(r: HttpExchange.Response)
    requires HttpExchange.IsTransportError(r)
    ensures OutcomeOf(r) == Failure(HttpErrorText(r))
    ensures var t := HttpErrorText(r);
      && |t| >= |r.body|
      && t[..|"OpenAI HTTP "| + |IntToString(r.responseCode)|] == "OpenAI HTTP " + IntToString(r.responseCode)
      && t[|t| - |r.body|..] == r.body
  {
    var code := "OpenAI HTTP " + IntToString(r.responseCode);
    var t := HttpErrorText(r);
    assert t == code + (": " + r.error + "\n" + r.body);
    assert t == (code + ": " + r.error + "\n") + r.body;
  }

  /** Reply text is never empty, and it is the decoded last content of a body
      that came back without a transport error. */
  lemma ReplyIsContent(r: HttpExchange.Response, t: string)
    requires OutcomeOf(r) == Success(t)
    ensures t != [] && !HttpExchange.IsTransportError(r) && LastContent(r.body) == Some(t)
  {
  }

  /** A body with no match, or whose last match is empty, fails with ParseFailed. */
  lemma NoContentFails(r: HttpExchange.Response)
    requires !HttpExchange.IsTransportError(r)
    requires LastContent(r.body) == None || LastContent(r.body) == Some([])
    ensures OutcomeOf(r) == Failure(ParseFailed)
  {
  }

  /** A reply whose only quoted text is one "content" member holding non-empty
      text x, as a JSON producer writes it, delivers x. */
  lemma ReplyRoundTrip(r: HttpExchange.Response, pre: string, w1: string, w2: string, x: string, post: string)
    requires !HttpExchange.IsTransportError(r) && x != []
    requires r.body == pre + MemberHead(w1, w2) + JsonEscape(x) + "\"" + post
    requires IsBlank(w1) && IsBlank(w2)
    requires forall k :: 0 <= k < |pre| ==> pre[k] != '"'
    requires forall k :: 0 <= k < |post| ==> post[k] != '"'
    ensures OutcomeOf(r) == Success(x)
  {
    ContentRoundTrip(pre, w1, w2, x, post);
  }
}
