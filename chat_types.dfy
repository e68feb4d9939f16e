/**
 * The values that travel between the dialogue logic and a chat backend.
 * ChatMessage is a plain role/content pair; a C# null role or content is "".
 */
module ChatTypes {
  import opened Wrappers

  datatype ChatMessage = ChatMessage(role: string, content: string)

  /**
   * What one ChatOnce call reports: exactly one of its callbacks runs, onText
   * with the reply (Success) or onError with a message (Failure).
   */
  type ChatOutcome = Result<string>

  /**
   * What one ChatStream call reports: the deltas passed to onDelta in order,
   * whether onComplete ran, and the message passed to onError if it ran.
   */
  datatype StreamOutcome = StreamOutcome(deltas: seq<string>, completed: bool, error: Option<string>)

  /** The err local a caller's onError lambda fills: the error, or null ("")
      when onText ran instead. */
  function CapturedError<T>(o: Result<T>): string
  {
    if o.Failure? then o.error else ""
  }

  /** The local a caller's onText lambda fills: the reply, or null ("") when
      onError ran instead. */
  function CapturedText(o: ChatOutcome): string
  {
    if o.Success? then o.value else ""
  }
}
