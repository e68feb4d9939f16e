/**
 * RiddleGenerator.Generate: one ChatOnce call with a fixed two-message list,
 * then the structured-reply pipeline, then the riddle built from the decoded
 * object.  The backend's reply, the JSON decoder and the fresh identifier
 * (Guid.NewGuid().ToString("N")) are inputs.
 */
module RiddleGenerator {
  import opened Wrappers
  import opened Text
  import opened ChatTypes
  import opened ChatMessageSanitizer
  import opened JsonEnvelopeExtractor
  import opened RiddleTypes
  import opened StructuredReply

  const GeneratorSystemPrompt: string :=
    "\nYou" + " generate a single riddle for a fantasy puzzle game.\n"
    + "\nOutput a JSON object in either:\n"
    + "1) <JSON> ... </JSON>\n"
    + "or\n"
    + "2) ```json ... ```\n"
    + "\nSchema:\n"
    + "{\n"
    + "  \"id\": string,\n"
    + "  \"question\": string,\n"
    + "  \"acceptanceCriteria\": string,\n"
    + "  \"hint\": string\n"
    + "}\n"
    + "\nRules:\n"
    + "- Theme: an enchanted door guarding a castle.\n"
    + "- acceptanceCriteria should be short and explicit (e.g. \"echo\", \"a map\", \"time\").\n"
  const ThemePrefix: string := "Extra theme constraints: "
  const NoEnvelope: string := "Generator returned no JSON envelope."
  const ParseFailed: string := "Generator JSON parse failed."

  /** The message list Generate hands to the backend. */
  function Messages(themeExtra: string): seq<ChatMessage>
  {
    [ChatMessage("system", GeneratorSystemPrompt), ChatMessage("user", ThemePrefix + themeExtra)]
  }

  /** The request is the system prompt and the theme line, and both survive
      sanitizing, so the backend sends exactly these two messages. */
  lemma MessagesSent(themeExtra: string)
    ensures |Messages(themeExtra)| == 2
    ensures Messages(themeExtra)[0] == ChatMessage("system", GeneratorSystemPrompt)
    ensures Messages(themeExtra)[1].role == "user"
    ensures Messages(themeExtra)[1].content[..|ThemePrefix|] == ThemePrefix
    ensures Messages(themeExtra)[1].content[|ThemePrefix|..] == themeExtra
    ensures Sanitized(Messages(themeExtra)) == Messages(themeExtra)
  {
    var m := Messages(themeExtra);
    assert GeneratorSystemPrompt[1] == 'Y';
    assert m[1].content[0] == 'E';
    SanitizeClean(m);
  }

  /** The riddle built from a decoded object: a blank id is replaced by the fresh one. */
  function RiddleOf(parsed: RiddleGeneratorResponse, freshId: string): (r: RiddleDefinition)
    ensures IsBlank(parsed.id) ==> r.id == freshId
    ensures !IsBlank(parsed.id) ==> r.id == parsed.id
    ensures r.question == parsed.question && r.acceptanceCriteria == parsed.acceptanceCriteria && r.hint == parsed.hint
  {
    RiddleDefinition(if IsBlank(parsed.id) then freshId else parsed.id, parsed.question, parsed.acceptanceCriteria, parsed.hint)
  }

  /** Generate, given the backend's reply: onRiddle with the riddle (Success) or onError. */
  function Generate(reply: ChatOutcome, decode: string -> Option<RiddleGeneratorResponse>, freshId: string): (r: Result<RiddleDefinition>)
    ensures r.Failure? ==> r.error == CapturedError(reply) || r.error == NoEnvelope || r.error == ParseFailed
    ensures r.Success? ==> CapturedError(reply) == [] && TryExtract(CapturedText(reply)).Some?
    ensures r.Success? && !IsBlank(freshId) ==> !IsBlank(r.value.id)
  {
    match DecodeReply(reply, decode, NoEnvelope, ParseFailed)
    case Failure(e) => Failure(e)
    case Success(parsed) => Success(RiddleOf(parsed, freshId))
  }

  /** A backend error is passed on verbatim; a missing envelope and an undecodable
      payload fail with their own messages. */
  lemma GenerateErrors(reply: ChatOutcome, decode: string -> Option<RiddleGeneratorResponse>, freshId: string)
    ensures reply.Failure? && reply.error != [] ==> Generate(reply, decode, freshId) == Failure(reply.error)
    ensures reply.Success? && TryExtract(reply.value).None? ==> Generate(reply, decode, freshId) == Failure(NoEnvelope)
    ensures reply.Success? && TryExtract(reply.value).Some? && decode(TryExtract(reply.value).value).None? ==>
              Generate(reply, decode, freshId) == Failure(ParseFailed)
    ensures Generate(reply, decode, freshId).Failure? ==>
              var e := Generate(reply, decode, freshId).error;
              e == CapturedError(reply) || e == NoEnvelope || e == ParseFailed
    ensures Generate(reply, decode, freshId).Failure? ==> Generate(reply, decode, freshId).error != []
  {
    DecodeReplySpec(reply, decode, NoEnvelope, ParseFailed);
  }

  /** A riddle comes only from a decoded envelope payload, with every field but a
      blank id copied from the decoded object. */
  lemma GenerateSuccess(reply: ChatOutcome, decode: string -> Option<RiddleGeneratorResponse>, freshId: string)
    ensures Generate(reply, decode, freshId).Success? <==>
              reply.Success? && TryExtract(reply.value).Some? && decode(TryExtract(reply.value).value).Some?
    ensures Generate(reply, decode, freshId).Success? ==>
              Generate(reply, decode, freshId).value == RiddleOf(decode(TryExtract(reply.value).value).value, freshId)
  {
    DecodeReplySpec(reply, decode, NoEnvelope, ParseFailed);
  }

  /** With a non-blank fresh id (a Guid's 32 hex digits), a generated riddle's id is never blank. */
  lemma GeneratedIdNotBlank(reply: ChatOutcome, decode: string -> Option<RiddleGeneratorResponse>, freshId: string)
    requires !IsBlank(freshId)
    requires Generate(reply, decode, freshId).Success?
    ensures !IsBlank(Generate(reply, decode, freshId).value.id)
  {
  }

  /** A reply that wraps a decodable JSON object in the tag pair yields its riddle. */
  lemma GenerateFromTaggedReply(j: string, q: string, decode: string -> Option<RiddleGeneratorResponse>, freshId: string)
    requires IsBracketed(j) && forall k :: !OccursAt(j, CloseTag, k)
    requires decode(j).Some?
    ensures Generate(Success(OpenTag + j + CloseTag + q), decode, freshId) == Success(RiddleOf(decode(j).value, freshId))
  {
    TaggedReplyDecodes(j, q, decode, NoEnvelope, ParseFailed);
  }
}
