/** The vLLM backend: ChatOnce hands the messages to the client; streaming is switched off. */
module VllmChatBackend {
  import opened Wrappers
  import opened ChatTypes
  import HttpExchange
  import VllmChatClient

  const StreamDisabled: string := "vLLM streaming is disabled. Use ChatOnce + typewriter."

  datatype Backend = Backend(client: VllmChatClient.Client)

  /**
   * ChatOnce: exactly what the client's SendChatOnce sends and reports for the
   * same, unmodified message list.
   */
  method ChatOnce(b: Backend, messages: seq<ChatMessage>, response: HttpExchange.Response)
      returns (sent: Option<HttpExchange.Post<VllmChatClient.ChatRequest>>, outcome: ChatOutcome)
    ensures sent == VllmChatClient.RequestFor(b.client, messages)
    ensures outcome == VllmChatClient.SendOutcome(b.client, messages, response)
  {
    sent, outcome := VllmChatClient.SendChatOnce(b.client, messages, response);
  }

  /** ChatStream: onError with a fixed message; no delta, no completion, no request. */
  function ChatStream(b: Backend, messages: seq<ChatMessage>): (r: StreamOutcome)
    ensures r.deltas == [] && !r.completed && r.error == Some(StreamDisabled)
  {
    StreamOutcome([], false, Some(StreamDisabled))
  }
}
