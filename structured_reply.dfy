/**
 * The pipeline the riddle generator and the judge share after their ChatOnce
 * call: a backend error is passed on as it is; otherwise the reply text must
 * hold a JSON envelope, and the envelope's payload must decode.  JsonUtility's
 * decoding is the parameter `decode` (None where FromJson throws).
 */
module StructuredReply {
  import opened Wrappers
  import opened Text
  import opened ChatTypes
  import opened JsonEnvelopeExtractor

  /** The outcome for a reply, with the caller's two error messages. */
  function DecodeReply<T>(reply: ChatOutcome, decode: string -> Option<T>, noEnvelope: string, parseFailed: string): Result<T>
  {
    var err := CapturedError(reply);
    if err != [] then Failure(err)
    else
      match TryExtract(CapturedText(reply))
      case None => Failure(noEnvelope)
      case Some(json) =>
        match decode(json)
        case None => Failure(parseFailed)
        case Some(parsed) => Success(parsed)
  }

  /** The three error paths, in the order they are tried, and the only way to succeed. */
  lemma DecodeReplySpec<T>(reply: ChatOutcome, decode: string -> Option<T>, noEnvelope: string, parseFailed: string)
    ensures reply.Failure? && reply.error != [] ==> DecodeReply(reply, decode, noEnvelope, parseFailed) == Failure(reply.error)
    ensures CapturedError(reply) == [] && TryExtract(CapturedText(reply)).None? ==>
              DecodeReply(reply, decode, noEnvelope, parseFailed) == Failure(noEnvelope)
    ensures CapturedError(reply) == [] && TryExtract(CapturedText(reply)).Some? && decode(TryExtract(CapturedText(reply)).value).None? ==>
              DecodeReply(reply, decode, noEnvelope, parseFailed) == Failure(parseFailed)
    ensures DecodeReply(reply, decode, noEnvelope, parseFailed).Success? <==>
              reply.Success? && TryExtract(reply.value).Some? && decode(TryExtract(reply.value).value).Some?
    ensures DecodeReply(reply, decode, noEnvelope, parseFailed).Success? ==>
              DecodeReply(reply, decode, noEnvelope, parseFailed).value == decode(TryExtract(reply.value).value).value
  {
    if reply.Failure? && reply.error == [] {
      assert CapturedText(reply) == [];
    }
  }

  /** What the decoder is given is a non-empty, trimmed piece of the reply text. */
  lemma DecoderInput<T>(reply: ChatOutcome, decode: string -> Option<T>, noEnvelope: string, parseFailed: string)
    requires DecodeReply(reply, decode, noEnvelope, parseFailed).Success?
    ensures reply.Success?
    ensures var json := TryExtract(reply.value).value;
      json != [] && Trim(json) == json && IsSubstring(json, reply.value)
  {
    DecodeReplySpec(reply, decode, noEnvelope, parseFailed);
    TryExtractSpec(reply.value);
  }

  /** A reply holding a bracketed payload between the tags decodes that payload. */
  lemma TaggedReplyDecodes<T>(j: string, q: string, decode: string -> Option<T>, noEnvelope: string, parseFailed: string)
    requires IsBracketed(j) && forall k :: !OccursAt(j, CloseTag, k)
    requires decode(j).Some?
    ensures DecodeReply(Success(OpenTag + j + CloseTag + q), decode, noEnvelope, parseFailed) == Success(decode(j).value)
  {
    TagRoundTrip(j, q);
  }
}
