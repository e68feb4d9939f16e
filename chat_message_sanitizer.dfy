/**
 * Cleaning a message list before it is sent: messages with blank content are
 * dropped and any role other than system/user/assistant becomes "system".
 */
module ChatMessageSanitizer {
  import opened Text
  import opened ChatTypes

  predicate IsKnownRole(role: string)
  {
    role == "system" || role == "user" || role == "assistant"
  }

  /** NormalizeRole: a known role is kept, anything else (null included) is "system". */
  function NormalizeRole(role: string): (r: string)
    ensures IsKnownRole(r)
    ensures IsKnownRole(role) ==> r == role
    ensures !IsKnownRole(role) ==> r == "system"
  {
    match role
    case "system" => role
    case "user" => role
    case "assistant" => role
    case _ => "system"
  }

  /** A message that survives sanitizing unchanged. */
  predicate IsClean(m: ChatMessage)
  {
    IsKnownRole(m.role) && !IsBlank(m.content)
  }

  function Normalized(m: ChatMessage): ChatMessage
  {
    ChatMessage(NormalizeRole(m.role), m.content)
  }

  /** The sanitized list, over the messages in order. */
  function Sanitized(input: seq<ChatMessage>): (r: seq<ChatMessage>)
    ensures |r| <= |input|
    ensures forall k :: 0 <= k < |r| ==> IsClean(r[k])
  {
    if input == [] then []
    else
      var m := input[|input| - 1];
      Sanitized(input[..|input| - 1]) + (if IsBlank(m.content) then [] else [Normalized(m)])
  }

  /** Sanitize: the foreach over the input, adding the kept messages to a new list. */
  method Sanitize(input: seq<ChatMessage>) returns (output: seq<ChatMessage>)
    ensures output == Sanitized(input)
  {
    output := [];
    var i := 0;
    while i < |input|
      invariant 0 <= i <= |input|
      invariant output == Sanitized(input[..i])
    {
      var msg := input[i];
      assert input[..i + 1][..i] == input[..i];
      if !IsBlank(msg.content) {
        var role := NormalizeRole(msg.role);
        output := output + [ChatMessage(role, msg.content)];
      }
      i := i + 1;
    }
    assert input[..i] == input;
  }

  /** The positions of the messages with non-blank content, in order. */
  function KeptIndices(input: seq<ChatMessage>): (r: seq<nat>)
    ensures forall k :: 0 <= k < |r| ==> r[k] < |input|
  {
    if input == [] then []
    else
      var n := |input| - 1;
      KeptIndices(input[..n]) + (if IsBlank(input[n].content) then [] else [n])
  }

  /** The kept positions increase and are exactly those with non-blank content. */
  lemma {:induction false} KeptIndicesSpec(input: seq<ChatMessage>)
    ensures forall k, l :: 0 <= k < l < |KeptIndices(input)| ==> KeptIndices(input)[k] < KeptIndices(input)[l]
    ensures forall i :: 0 <= i < |input| ==> (i in KeptIndices(input) <==> !IsBlank(input[i].content))
  {
    if input != [] {
      var n := |input| - 1;
      KeptIndicesSpec(input[..n]);
      forall i | 0 <= i < n ensures input[i] == input[..n][i] {
      }
    }
  }

  /** The output is the kept messages, role-normalized, with content and order unchanged. */
  lemma {:induction false} SanitizedSelects(input: seq<ChatMessage>)
    ensures |KeptIndices(input)| == |Sanitized(input)|
    ensures forall k :: 0 <= k < |Sanitized(input)| ==>
              Sanitized(input)[k] == Normalized(input[KeptIndices(input)[k]])
  {
    if input != [] {
      var n := |input| - 1;
      var front := input[..n];
      SanitizedSelects(front);
      var r := Sanitized(input);
      var idx := KeptIndices(input);
      forall k | 0 <= k < |r| ensures r[k] == Normalized(input[idx[k]]) {
        if k < |Sanitized(front)| {
          assert input[KeptIndices(front)[k]] == front[KeptIndices(front)[k]];
        }
      }
    }
  }

  /** An already-clean list comes back unchanged. */
  lemma {:induction false} SanitizeClean(input: seq<ChatMessage>)
    requires forall k :: 0 <= k < |input| ==> IsClean(input[k])
    ensures Sanitized(input) == input
  {
    if input != [] {
      var n := |input| - 1;
      SanitizeClean(input[..n]);
      assert input[..n] + [input[n]] == input;
    }
  }

  /** Sanitizing twice is sanitizing once. */
  lemma SanitizeIdempotent(input: seq<ChatMessage>)
    ensures Sanitized(Sanitized(input)) == Sanitized(input)
  {
    SanitizeClean(Sanitized(input));
  }
}
