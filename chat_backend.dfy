/**
 * IChatBackend as the closed set of its two implementations, and the choice
 * the game controller makes between them from the backend configuration.
 */
module ChatBackend {
  import opened Wrappers
  import opened Text
  import opened ChatTypes
  import HttpExchange
  import VllmChatClient
  import ContentRegex
  import VllmChatBackend
  import OpenAiChatBackend

  datatype ChatBackend = Vllm(vllm: VllmChatBackend.Backend) | OpenAi(openAi: OpenAiChatBackend.Backend)

  /** The fields of AiBackendConfig the controller reads. */
  datatype BackendConfig = BackendConfig(useOpenAi: bool, temperature: real, openAiApiKey: string, openAiModel: string)

  /** CreateBackend: OpenAI with the configured key, model and temperature, or
      else the vLLM backend over the parameterless client (the configured vLLM
      fields are not used). */
  function CreateBackend(cfg: BackendConfig): (b: ChatBackend)
    ensures b.OpenAi? <==> cfg.useOpenAi
    ensures b.OpenAi? ==> b.openAi == OpenAiChatBackend.Backend(cfg.openAiApiKey, cfg.openAiModel, cfg.temperature)
    ensures b.Vllm? ==> b.vllm.client == VllmChatClient.DefaultClient()
  {
    if cfg.useOpenAi then OpenAi(OpenAiChatBackend.Backend(cfg.openAiApiKey, cfg.openAiModel, cfg.temperature))
    else Vllm(VllmChatBackend.Backend(VllmChatClient.DefaultClient()))
  }

  /** What ChatOnce reports for a message list, given the network's answer to
      the request (if it sends one). */
  function ChatOnceOutcome(b: ChatBackend, messages: seq<ChatMessage>, response: HttpExchange.Response): (r: ChatOutcome)
    ensures b.Vllm? && messages == [] ==> r == Failure(VllmChatClient.NoMessages)
    ensures r.Success? ==> !HttpExchange.IsTransportError(response) && r.value != []
    ensures r.Success? ==> ContentRegex.LastContent(response.body) == Some(r.value)
  {
    match b
    case Vllm(v) => VllmChatClient.SendOutcome(v.client, messages, response)
    case OpenAi(o) => OpenAiChatBackend.OutcomeOf(response)
  }

  /** ChatOnce of either backend. */
  method ChatOnce(b: ChatBackend, messages: seq<ChatMessage>, response: HttpExchange.Response) returns (outcome: ChatOutcome)
    ensures outcome == ChatOnceOutcome(b, messages, response)
  {
    match b
    case Vllm(v) =>
      var _, o := VllmChatBackend.ChatOnce(v, messages, response);
      outcome := o;
    case OpenAi(o) =>
      var _, r := OpenAiChatBackend.ChatOnce(o, messages, response);
      outcome := r;
  }

  /** ChatStream of either backend. */
  function ChatStream(b: ChatBackend, messages: seq<ChatMessage>): StreamOutcome
  {
    match b
    case Vllm(v) => VllmChatBackend.ChatStream(v, messages)
    case OpenAi(o) => OpenAiChatBackend.ChatStream(o, messages)
  }

  /** Neither backend streams: ChatStream only ever reports an error. */
  lemma NoBackendStreams(b: ChatBackend, messages: seq<ChatMessage>)
    ensures ChatStream(b, messages).deltas == [] && !ChatStream(b, messages).completed
    ensures ChatStream(b, messages).error.Some? && ChatStream(b, messages).error.value != []
  {
  }


  /** Every ChatOnce outcome of either backend carries a non-empty string, text
      or error, so callers that test the error for null or empty never take a
      failure for a reply. */
  lemma OutcomeNonEmpty(b: ChatBackend, messages: seq<ChatMessage>, response: HttpExchange.Response)
    ensures ChatOnceOutcome(b, messages, response).Success? ==> ChatOnceOutcome(b, messages, response).value != []
    ensures ChatOnceOutcome(b, messages, response).Failure? ==> ChatOnceOutcome(b, messages, response).error != []
  {
    var code := IntToString(response.responseCode);
    match b
    case Vllm(v) =>
      var t := VllmChatClient.HttpErrorText(response);
      assert t == "vLLM HTTP " + code + ": " + response.error + "\n" + VllmChatClient.Truncate(response.body, VllmChatClient.BodyLimit);
      assert t[0] == 'v';
    case OpenAi(o) =>
      var t := OpenAiChatBackend.HttpErrorText(response);
      assert t == "OpenAI HTTP " + code + ": " + response.error + "\n" + response.body;
      assert t[0] == 'O';
  }
}
