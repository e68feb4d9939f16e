/**
 * The vLLM chat-completions client: its configuration, the POST it builds for
 * a message list, and how it turns the response into reply text or an error.
 */
module VllmChatClient {
  import opened Wrappers
  import opened Text
  import opened ChatTypes
  import HttpExchange
  import opened ChatMessageSanitizer
  import opened VllmStreamDeltaParser
  import opened ContentRegex

  /** The request object handed to JsonUtility.ToJson. */
  datatype ChatRequest = ChatRequest(model: string, messages: seq<ChatMessage>, stream: bool, temperature: real)

  /** The client's readonly fields. */
  datatype Client = Client(url: string, apiKey: string, model: string, temperature: real)

  /** The configuring constructor: the URL joins baseUrl, without its trailing
      slashes, and chatPath; a null apiKey is "". */
  function NewClient(baseUrl: string, chatPath: string, apiKey: string, model: string, temperature: real): (c: Client)
    ensures c.apiKey == apiKey && c.model == model && c.temperature == temperature
  {
    Client(TrimEndChar(baseUrl, '/') + chatPath, apiKey, model, temperature)
  }

  /** url is baseUrl with every trailing '/' removed and no other change, then chatPath. */
  predicate IsJoinedUrl(url: string, baseUrl: string, chatPath: string)
  {
    var n := |url| - |chatPath|;
    |chatPath| <= |url| && n <= |baseUrl| && url == baseUrl[..n] + chatPath &&
    (n == 0 || baseUrl[n - 1] != '/') &&
    forall i :: n <= i < |baseUrl| ==> baseUrl[i] == '/'
  }

  lemma NewClientUrl(baseUrl: string, chatPath: string, apiKey: string, model: string, temperature: real)
    ensures IsJoinedUrl(NewClient(baseUrl, chatPath, apiKey, model, temperature).url, baseUrl, chatPath)
  {
    var base := TrimEndChar(baseUrl, '/');
    TrimEndCharSpec(baseUrl, '/');
    assert |base + chatPath| - |chatPath| == |base|;
  }

  /** The parameterless constructor. */
  function DefaultClient(): (c: Client)
    ensures c.apiKey == []
  {
    Client("https://apertus.mediadock.space/v1/chat/completions", "", "swiss-ai/Apertus-8B-Instruct-2509", 0.7)
  }

  const NoMessages: string := "No messages provided."
  const ParseFailed: string := "vLLM response parse failed (no content)."
  const BodyLimit: nat := 1200

  /** Content-Type always; Authorization only with a non-blank key. */
  function RequestHeaders(apiKey: string): seq<HttpExchange.Header>
  {
    [HttpExchange.JsonContentType] + (if IsBlank(apiKey) then [] else [HttpExchange.Header("Authorization", "Bearer " + apiKey)])
  }

  /** The POST SendChatOnce sends, or None when it refuses before sending. */
  function RequestFor(c: Client, messages: seq<ChatMessage>): Option<HttpExchange.Post<ChatRequest>>
  {
    if messages == [] then None
    else Some(HttpExchange.Post(c.url, RequestHeaders(c.apiKey), ChatRequest(c.model, Sanitized(messages), false, c.temperature)))
  }

  /** Truncate: the first max characters and "..." when s is longer than max. */
  function Truncate(s: string, max: nat): (r: string)
    ensures |s| <= max ==> r == s
    ensures |s| > max ==> |r| == max + 3 && r[..max] == s[..max] && r[max..] == "..."
  {
    if s == [] then s
    else if |s| <= max then s
    else s[..max] + "..."
  }

  /** The onError text of a failed request. */
  function HttpErrorText(r: HttpExchange.Response): string
  {
    "vLLM HTTP " + IntToString(r.responseCode) + ": " + r.error + "\n" + Truncate(r.body, BodyLimit)
  }

  /** How a response becomes the call's outcome. */
  function OutcomeOf(r: HttpExchange.Response): ChatOutcome
  {
    if HttpExchange.IsTransportError(r) then Failure(HttpErrorText(r))
    else
      match LastContent(r.body)
      case Some(t) => if t == [] then Failure(ParseFailed) else Success(t)
      case None => Failure(ParseFailed)
  }

  /** The outcome of SendChatOnce for a message list and the response to its request. */
  function SendOutcome(c: Client, messages: seq<ChatMessage>, r: HttpExchange.Response): ChatOutcome
  {
    if messages == [] then Failure(NoMessages) else OutcomeOf(r)
  }

  /** ExtractLastContent: the decoded group of the last match (null when the body
      is empty or nothing matches). */
  method ExtractLastContent(body: string) returns (content: Option<string>)
    ensures content == LastContent(body)
  {
    if body == [] {
      return None;
    }
    var matches := MatchesFrom(body, 0);
    var last: Option<Span> := None;
    for i := 0 to |matches|
      invariant last == LastOf(matches[..i])
    {
      last := Some(matches[i]);
    }
    assert matches[..|matches|] == matches;
    if last.None? {
      return None;
    }
    var group := body[last.value.start..last.value.end];
    var text := JsonStringUnescape(group);
    content := Some(text);
  }

  /**
   * SendChatOnce, with the network's answer to the request as the input
   * `response` (ignored when nothing is sent): the request it sends and the
   * callback it runs.
   */
  method SendChatOnce(c: Client, messages: seq<ChatMessage>, response: HttpExchange.Response)
      returns (sent: Option<HttpExchange.Post<ChatRequest>>, outcome: ChatOutcome)
    ensures sent == RequestFor(c, messages)
    ensures outcome == SendOutcome(c, messages, response)
  {
    if |messages| == 0 {
      return None, Failure(NoMessages);
    }
    var sanitized := Sanitize(messages);
    sent := Some(HttpExchange.Post(c.url, RequestHeaders(c.apiKey), ChatRequest(c.model, sanitized, false, c.temperature)));
    if HttpExchange.IsTransportError(response) {
      return sent, Failure(HttpErrorText(response));
    }
    var content := ExtractLastContent(response.body);
    if content.None? || content.value == [] {
      return sent, Failure(ParseFailed);
    }
    outcome := Success(content.value);
  }

  /** An empty list is refused before any request, whatever the network would say. */
  lemma NoMessagesNoRequest(c: Client, r: HttpExchange.Response)
    ensures RequestFor(c, []) == None && SendOutcome(c, [], r) == Failure(NoMessages)
  {
  }

  /** A non-empty list is sent, sanitized, to the configured URL and model, not streamed;
      it carries an Authorization header exactly when the key is non-blank. */
  lemma RequestContents(c: Client, messages: seq<ChatMessage>)
    requires messages != []
    ensures RequestFor(c, messages).Some?
    ensures var p := RequestFor(c, messages).value;
      && p.url == c.url && p.payload.messages == Sanitized(messages)
      && p.payload.model == c.model && p.payload.temperature == c.temperature && !p.payload.stream
      && HttpExchange.Lookup(p.headers, "Content-Type") == Some("application/json")
      && (HttpExchange.Lookup(p.headers, "Authorization").Some? <==> !IsBlank(c.apiKey))
      && (!IsBlank(c.apiKey) ==> HttpExchange.Lookup(p.headers, "Authorization") == Some("Bearer " + c.apiKey))
  {
    var h := RequestHeaders(c.apiKey);
    assert h[0] == HttpExchange.JsonContentType;
    if !IsBlank(c.apiKey) {
      assert h[1..][0].name == "Authorization";
    } else {
      assert h == [HttpExchange.JsonContentType];
    }
  }

  /** A failed request reports the status code, the error and at most
      BodyLimit characters of the body, followed by "..." when cut. */
  lemma HttpErrorReported(r: HttpExchange.Response)
    requires HttpExchange.IsTransportError(r)
    ensures OutcomeOf(r) == Failure(HttpErrorText(r))
    ensures var t := HttpErrorText(r);
      && t[..|"vLLM HTTP "| + |IntToString(r.responseCode)|] == "vLLM HTTP " + IntToString(r.responseCode)
      && |Truncate(r.body, BodyLimit)| <= BodyLimit + 3
      && t[|t| - |Truncate(r.body, BodyLimit)|..] == Truncate(r.body, BodyLimit)
  {
    var code := "vLLM HTTP " + IntToString(r.responseCode);
    var tail := Truncate(r.body, BodyLimit);
    var t := HttpErrorText(r);
    assert t == code + (": " + r.error + "\n" + tail);
    assert t == code + ": " + r.error + "\n" + tail;
  }

  /** Reply text is never empty, and it is the decoded last content of a body
      that came back without a transport error. */
  lemma ReplyIsContent(r: HttpExchange.Response, t: string)
    requires OutcomeOf(r) == Success(t)
    ensures t != [] && !HttpExchange.IsTransportError(r) && LastContent(r.body) == Some(t)
  {
  }

  /** A body with no match, or whose last match is empty, fails with ParseFailed. */
  lemma NoContentFails(r: HttpExchange.Response)
    requires !HttpExchange.IsTransportError(r)
    requires LastContent(r.body) == None || LastContent(r.body) == Some([])
    ensures OutcomeOf(r) == Failure(ParseFailed)
  {
  }

  /** A reply whose only quoted text is one "content" member holding non-empty
      text x, as a JSON producer writes it, delivers x. */
  lemma ReplyRoundTrip(r: HttpExchange.Response, pre: string, w1: string, w2: string, x: string, post: string)
    requires !HttpExchange.IsTransportError(r) && x != []
    requires r.body == pre + MemberHead(w1, w2) + JsonEscape(x) + "\"" + post
    requires IsBlank(w1) && IsBlank(w2)
    requires forall k :: 0 <= k < |pre| ==> pre[k] != '"'
    requires forall k :: 0 <= k < |post| ==> post[k] != '"'
    ensures OutcomeOf(r) == Success(x)
  {
    ContentRoundTrip(pre, w1, w2, x, post);
  }
}
