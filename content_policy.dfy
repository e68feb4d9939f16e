/**
 * The PG-13 gate in front of the door NPC: a fixed-priority, first-match
 * decision over four pattern categories, once for player input and once for
 * model output.  The four regular expressions are not modelled; each one is a
 * predicate on the text, supplied in a `Patterns` value.
 */
module ContentPolicy {
  import opened Wrappers
  import opened Text

  /** The four categories, in the order the gates test them. */
  datatype Category = SelfHarm | HateHarassment | GraphicViolence | DrugsHard

  /** Whether each category's pattern matches a text (Regex.IsMatch). */
  datatype Patterns = Patterns(
    selfHarm: string -> bool,
    hateHarassment: string -> bool,
    graphicViolence: string -> bool,
    drugsHard: string -> bool)

  /** The outcome of a gate: allowed or not, and the reason (null when allowed). */
  datatype Verdict = Verdict(allowed: bool, reason: Option<string>)

  function Rank(c: Category): nat
  {
    match c
    case SelfHarm => 0
    case HateHarassment => 1
    case GraphicViolence => 2
    case DrugsHard => 3
  }

  predicate Matches(p: Patterns, c: Category, text: string)
  {
    match c
    case SelfHarm => p.selfHarm(text)
    case HateHarassment => p.hateHarassment(text)
    case GraphicViolence => p.graphicViolence(text)
    case DrugsHard => p.drugsHard(text)
  }

  /** The first category, in test order, whose pattern matches. */
  function FirstMatch(p: Patterns, text: string): (r: Option<Category>)
    ensures r.Some? ==> Matches(p, r.value, text)
    ensures r.Some? ==> forall d :: Rank(d) < Rank(r.value) ==> !Matches(p, d, text)
    ensures r.None? ==> !Matches(p, SelfHarm, text) && !Matches(p, HateHarassment, text)
                          && !Matches(p, GraphicViolence, text) && !Matches(p, DrugsHard, text)
  {
    if p.selfHarm(text) then Some(SelfHarm)
    else if p.hateHarassment(text) then Some(HateHarassment)
    else if p.graphicViolence(text) then Some(GraphicViolence)
    else if p.drugsHard(text) then Some(DrugsHard)
    else None
  }

  /** FirstMatch picks a matching category with no matching category before it,
      and finds nothing only when no category matches. */
  lemma FirstMatchSpec(p: Patterns, text: string, c: Category)
    ensures FirstMatch(p, text) == Some(c) <==>
              Matches(p, c, text) && forall d :: Rank(d) < Rank(c) ==> !Matches(p, d, text)
    ensures FirstMatch(p, text).None? <==> forall d :: !Matches(p, d, text)
  {
    if FirstMatch(p, text).None? {
      forall d ensures !Matches(p, d, text) {
        match d
        case SelfHarm =>
        case HateHarassment =>
        case GraphicViolence =>
        case DrugsHard =>
      }
    }
    assert Matches(p, SelfHarm, text) == p.selfHarm(text);
    assert Matches(p, HateHarassment, text) == p.hateHarassment(text);
    assert Matches(p, GraphicViolence, text) == p.graphicViolence(text);
    assert Matches(p, DrugsHard, text) == p.drugsHard(text);
  }

  const EmptyMessage: string := "Empty message."

  function InputReason(c: Category): string
  {
    match c
    case SelfHarm => "I can\U{2019}t help with self-harm content."
    case HateHarassment => "Hate/harassment content isn\U{2019}t allowed."
    case GraphicViolence => "Graphic violence isn\U{2019}t allowed in this game."
    case DrugsHard => "I can\U{2019}t help with drug-making or dealing content."
  }

  function OutputReason(c: Category): string
  {
    match c
    case SelfHarm => "NPC output violated safety rules (self-harm)."
    case HateHarassment => "NPC output violated safety rules (hate/harassment)."
    case GraphicViolence => "NPC output violated safety rules (graphic violence)."
    case DrugsHard => "NPC output violated safety rules (drug content)."
  }

  /** IsUserInputAllowed: blank input is refused as empty; otherwise the first
      matching category refuses it. */
  function IsUserInputAllowed(p: Patterns, text: string): (r: Verdict)
    ensures IsBlank(text) ==> r == Verdict(false, Some(EmptyMessage))
    ensures r.allowed <==> r.reason.None?
    ensures !IsBlank(text) ==> (r.allowed <==> forall c :: !Matches(p, c, text))
  {
    if IsBlank(text) then Verdict(false, Some(EmptyMessage))
    else
      match FirstMatch(p, text)
      case Some(c) =>
        FirstMatchSpec(p, text, c);
        Verdict(false, Some(InputReason(c)))
      case None =>
        FirstMatchSpec(p, text, SelfHarm);
        Verdict(true, None)
  }

  /** IsModelOutputAllowed: blank output passes without a reason; otherwise
      the first matching category refuses it. */
  function IsModelOutputAllowed(p: Patterns, text: string): (r: Verdict)
    ensures IsBlank(text) ==> r == Verdict(true, None)
    ensures r.allowed <==> r.reason.None?
    ensures !IsBlank(text) ==> (r.allowed <==> forall c :: !Matches(p, c, text))
  {
    if IsBlank(text) then Verdict(true, None)
    else
      match FirstMatch(p, text)
      case Some(c) =>
        FirstMatchSpec(p, text, c);
        Verdict(false, Some(OutputReason(c)))
      case None =>
        FirstMatchSpec(p, text, SelfHarm);
        Verdict(true, None)
  }

  /** A refused non-blank text names the first matching category, in both gates. */
  lemma RefusalNamesFirstMatch(p: Patterns, text: string, c: Category)
    requires !IsBlank(text)
    requires Matches(p, c, text) && forall d :: Rank(d) < Rank(c) ==> !Matches(p, d, text)
    ensures IsUserInputAllowed(p, text) == Verdict(false, Some(InputReason(c)))
    ensures IsModelOutputAllowed(p, text) == Verdict(false, Some(OutputReason(c)))
  {
    FirstMatchSpec(p, text, c);
  }

  /** On non-blank text the two gates agree on allowing, and differ only in the wording. */
  lemma GatesAgree(p: Patterns, text: string)
    requires !IsBlank(text)
    ensures IsUserInputAllowed(p, text).allowed == IsModelOutputAllowed(p, text).allowed
    ensures !IsUserInputAllowed(p, text).allowed ==>
              exists c :: IsUserInputAllowed(p, text).reason == Some(InputReason(c)) &&
                          IsModelOutputAllowed(p, text).reason == Some(OutputReason(c))
  {
    match FirstMatch(p, text)
    case None =>
    case Some(c) =>
      assert IsUserInputAllowed(p, text).reason == Some(InputReason(c));
  }

  /** GetPg13RefusalLine: always the same, non-blank line. */
  function GetPg13RefusalLine(): (r: string)
    ensures !IsBlank(r)
  {
    var head := "The door\U{2019}s runes dim. ";
    var line := head + "\U{201C}No. Keep it PG-13, traveler. Back to the riddle.\U{201D}";
    assert line[0] == head[0] == 'T';
    line
  }
}
