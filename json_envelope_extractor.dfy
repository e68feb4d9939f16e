/**
 * Finding the JSON payload in a model reply: the text between the first
 * `<JSON>` and the next `</JSON>`, or else the first fenced code block,
 * trimmed, stripped of a leading byte-order mark and cut to start at the
 * first '{' or '['.
 */
module JsonEnvelopeExtractor {
  import opened Wrappers
  import opened Text

  const OpenTag: string := "<JSON>"
  const CloseTag: string := "</JSON>"
  const Fence: string := "```"
  const Bom: char := '\U{FEFF}'

  // ---------------------------------------------------------------------------
  // The tag pair

  /** Where the tagged inner text lies: from the end of the first `<JSON>` to
      the first `</JSON>` at or after that point. */
  function TagSpan(text: string): (r: Option<(nat, nat)>)
    ensures r.Some? ==> r.value.0 <= r.value.1 <= |text|
  {
    match IndexOf(text, OpenTag, 0)
    case None => None
    case Some(a) =>
      match IndexOf(text, CloseTag, a + |OpenTag|)
      case None => None
      case Some(b) => Some((a + |OpenTag|, b))
  }

  predicate IsTagSpan(text: string, start: nat, b: nat)
  {
    |OpenTag| <= start && IsFirstFrom(text, OpenTag, 0, start - |OpenTag|) && IsFirstFrom(text, CloseTag, start, b)
  }

  lemma TagSpanSpec(text: string, start: nat, b: nat)
    ensures TagSpan(text) == Some((start, b)) <==> IsTagSpan(text, start, b)
  {
    if start >= |OpenTag| {
      IndexOfSpec(text, OpenTag, 0, start - |OpenTag|);
    }
    match IndexOf(text, OpenTag, 0)
    case None =>
    case Some(a) =>
      IndexOfSpec(text, OpenTag, 0, a);
      IndexOfSpec(text, CloseTag, a + |OpenTag|, b);
  }

  /** TryExtractBetween(text, OpenTag, CloseTag): the trimmed inner text, unless it is empty. */
  function TryExtractBetween(text: string): (r: Option<string>)
    ensures TagSpan(text).None? ==> r.None?
    ensures r.Some? ==> r.value != []
  {
    match TagSpan(text)
    case None => None
    case Some(span) =>
      var inner := Trim(text[span.0..span.1]);
      if inner == [] then None else Some(inner)
  }

  /** Given the tag span, the pair yields its trimmed inner text exactly when
      that text is not blank. */
  lemma BetweenSpec(text: string, start: nat, b: nat)
    requires IsTagSpan(text, start, b)
    ensures start <= b <= |text|
    ensures IsBlank(text[start..b]) ==> TryExtractBetween(text).None?
    ensures !IsBlank(text[start..b]) ==> TryExtractBetween(text) == Some(Trim(text[start..b]))
  {
    TagSpanSpec(text, start, b);
    TrimSpec(text[start..b]);
  }

  // ---------------------------------------------------------------------------
  // The code fence

  /** Where the fenced content lies: the first fence, the first newline after
      it, and the first fence at or after the start of the next line. */
  function FenceSpan(text: string): (r: Option<(nat, nat, nat)>)
    ensures r.Some? ==> r.value.1 <= r.value.2 <= |text|
  {
    match IndexOf(text, Fence, 0)
    case None => None
    case Some(start) =>
      match IndexOfChar(text, '\n', start + |Fence|)
      case None => None
      case Some(lineEnd) =>
        match IndexOf(text, Fence, lineEnd + 1)
        case None => None
        case Some(end) => Some((start, lineEnd + 1, end))
  }

  predicate IsFenceSpan(text: string, start: nat, contentStart: nat, end: nat)
  {
    && IsFirstFrom(text, Fence, 0, start)
    && 0 < contentStart
    && IsFirstCharFrom(text, '\n', start + |Fence|, contentStart - 1)
    && IsFirstFrom(text, Fence, contentStart, end)
  }

  lemma FenceSpanSpec(text: string, start: nat, contentStart: nat, end: nat)
    ensures FenceSpan(text) == Some((start, contentStart, end)) <==> IsFenceSpan(text, start, contentStart, end)
  {
    IndexOfSpec(text, Fence, 0, start);
    IndexOfSpec(text, Fence, contentStart, end);
    if contentStart > 0 {
      IndexOfCharSpec(text, '\n', start + |Fence|, contentStart - 1);
    }
  }

  /** TryExtractCodeFence: the trimmed fenced content, unless it is empty. */
  function TryExtractCodeFence(text: string): (r: Option<string>)
    ensures FenceSpan(text).None? ==> r.None?
    ensures r.Some? ==> r.value != []
  {
    match FenceSpan(text)
    case None => None
    case Some(span) =>
      var inner := Trim(text[span.1..span.2]);
      if inner == [] then None else Some(inner)
  }

  /** A fence without a newline after it, or without a closing fence, yields nothing. */
  lemma FenceNeedsNewlineAndClose(text: string, start: nat)
    requires IsFirstFrom(text, Fence, 0, start)
    requires (forall k :: start + |Fence| <= k < |text| ==> text[k] != '\n')
          || (forall k :: start + |Fence| <= k < |text| && text[k] == '\n' ==>
                forall m :: k + 1 <= m ==> !OccursAt(text, Fence, m))
    ensures TryExtractCodeFence(text).None?
  {
    IndexOfSpec(text, Fence, 0, start);
    match IndexOfChar(text, '\n', start + |Fence|)
    case None =>
    case Some(lineEnd) =>
      assert text[lineEnd] == '\n';
  }

  // ---------------------------------------------------------------------------
  // SanitizeJson

  predicate IsBracket(c: char)
  {
    c == '{' || c == '['
  }

  /** The earlier of the first '{' and the first '[' of s. */
  function FirstBracket(s: string): (r: Option<nat>)
    ensures r.Some? ==> r.value < |s| && IsBracket(s[r.value])
    ensures r.Some? ==> forall j :: 0 <= j < r.value ==> !IsBracket(s[j])
    ensures r.None? ==> forall j :: 0 <= j < |s| ==> !IsBracket(s[j])
  {
    var obj := IndexOfChar(s, '{', 0);
    var arr := IndexOfChar(s, '[', 0);
    if obj.Some? && arr.Some? then Some(if obj.value < arr.value then obj.value else arr.value)
    else if obj.Some? then obj
    else arr
  }

  /** The input trimmed, then stripped of its leading byte-order marks. */
  function Cleaned(input: string): (r: string)
    ensures |r| <= |input|
  {
    TrimStartChar(Trim(input), Bom)
  }

  lemma CleanedSubstring(input: string)
    ensures IsSubstring(Cleaned(input), input)
  {
    var t := Trim(input);
    TrimSpec(input);
    var r := Cleaned(input);
    TrimStartCharSpec(t, Bom);
    assert OccursAt(t, r, |t| - |r|);
    SubstringTransitive(r, t, input);
  }

  /** The text from the first bracket on, or all of it when there is none. */
  function CutAtBracket(s: string): (r: string)
    ensures |r| <= |s| && r == s[|s| - |r|..]
  {
    match FirstBracket(s)
    case Some(first) => if first > 0 then s[first..] else s
    case None => s
  }

  function SanitizeJson(input: string): (r: Option<string>)
    ensures input == [] ==> r.None?
    ensures r.Some? ==> r.value != []
  {
    if input == [] then None
    else
      var out := Trim(CutAtBracket(Cleaned(input)));
      if out == [] then None else Some(out)
  }

  /** A payload is non-empty, already trimmed and a contiguous piece of the input. */
  lemma SanitizeSpec(input: string)
    ensures SanitizeJson(input).Some? ==>
              var out := SanitizeJson(input).value;
              out != [] && Trim(out) == out && IsSubstring(out, input)
  {
    if input != [] {
      var s := Cleaned(input);
      var cut := CutAtBracket(s);
      assert OccursAt(s, cut, |s| - |cut|);
      CleanedSubstring(input);
      TrimSpec(cut);
      TrimIdempotent(cut);
      SubstringTransitive(Trim(cut), cut, s);
      SubstringTransitive(Trim(cut), s, input);
    }
  }

  /** With a bracket in the cleaned input, the payload starts at the first one
      and runs to the last non-whitespace character. */
  lemma SanitizeAtBracket(input: string, k: nat)
    requires k < |Cleaned(input)| && IsBracket(Cleaned(input)[k])
    requires forall j :: 0 <= j < k ==> !IsBracket(Cleaned(input)[j])
    ensures SanitizeJson(input) == Some(TrimEnd(Cleaned(input)[k..]))
    ensures SanitizeJson(input).value[0] == Cleaned(input)[k]
  {
    var s := Cleaned(input);
    assert CutAtBracket(s) == s[k..] by {
      assert FirstBracket(s) == Some(k);
    }
    TrimNonWhiteStart(s[k..]);
  }

  /** Without a bracket the payload is the cleaned input, trimmed again. */
  lemma SanitizeWithoutBracket(input: string)
    requires input != []
    requires forall j :: 0 <= j < |Cleaned(input)| ==> !IsBracket(Cleaned(input)[j])
    ensures Trim(Cleaned(input)) == [] ==> SanitizeJson(input).None?
    ensures Trim(Cleaned(input)) != [] ==> SanitizeJson(input) == Some(Trim(Cleaned(input)))
  {
    assert FirstBracket(Cleaned(input)).None?;
  }

  /** Only byte-order marks directly at the start of the trimmed text go: one
      behind white space survives into the payload. */
  lemma SanitizeKeepsInnerBom(x: string)
    requires x != [] && x[0] == Bom && !IsWhiteSpace(x[|x| - 1])
    requires forall j :: 0 <= j < |x| ==> !IsBracket(x[j])
    ensures SanitizeJson([Bom, ' '] + x) == Some(x)
  {
    var input := [Bom, ' '] + x;
    var s := [' '] + x;
    forall j | 0 <= j < |s| ensures !IsBracket(s[j]) {
      if j > 0 {
        assert s[j] == x[j - 1];
      }
    }
    assert Cleaned(input) == s by {
      TrimNonWhiteStart(input);
      assert TrimEnd(input) == input by {
        assert input[|input| - 1] == x[|x| - 1];
      }
      assert input[1..] == s;
      assert TrimStartChar(s, Bom) == s;
    }
    assert Trim(s) == x by {
      assert TrimStart(s) == x by {
        assert s[1..] == x;
        TrimNonWhiteStart(x);
      }
      assert TrimEnd(x) == x;
    }
    SanitizeWithoutBracket(input);
  }

  // ---------------------------------------------------------------------------
  // TryExtract

  function TryExtract(text: string): (r: Option<string>)
    ensures text == [] ==> r.None?
    ensures r.Some? ==> r.value != []
  {
    if text == [] then None
    else
      match TryExtractBetween(text)
      case Some(inner) => SanitizeJson(inner)
      case None =>
        match TryExtractCodeFence(text)
        case Some(inner) => SanitizeJson(inner)
        case None => None
  }

  /** A tag pair with a non-blank body decides the result; the fence is not consulted. */
  lemma TagsTakePrecedence(text: string, start: nat, b: nat)
    requires IsTagSpan(text, start, b) && start <= b <= |text| && !IsBlank(text[start..b])
    ensures TryExtract(text) == SanitizeJson(Trim(text[start..b]))
  {
    BetweenSpec(text, start, b);
  }

  /** A blank tag body, or a missing tag, falls through to the fence. */
  lemma FallThroughToFence(text: string, start: nat, contentStart: nat, end: nat)
    requires TryExtractBetween(text).None?
    requires IsFenceSpan(text, start, contentStart, end)
    ensures contentStart <= end <= |text|
    ensures IsBlank(text[contentStart..end]) ==> TryExtract(text).None?
    ensures !IsBlank(text[contentStart..end]) ==> TryExtract(text) == SanitizeJson(Trim(text[contentStart..end]))
  {
    FenceSpanSpec(text, start, contentStart, end);
    TrimSpec(text[contentStart..end]);
  }

  /** Text with neither `<JSON>` nor a fence yields nothing. */
  lemma NoEnvelope(text: string)
    requires forall k :: !OccursAt(text, OpenTag, k)
    requires forall k :: !OccursAt(text, Fence, k)
    ensures TryExtract(text).None?
  {
    assert IndexOf(text, OpenTag, 0).None?;
    assert IndexOf(text, Fence, 0).None?;
  }

  /** The trimmed text between two positions is a contiguous piece of the text. */
  lemma TrimmedPieceSubstring(text: string, a: nat, b: nat)
    requires a <= b <= |text|
    ensures IsSubstring(Trim(text[a..b]), text)
  {
    var piece := text[a..b];
    assert OccursAt(text, piece, a);
    TrimSpec(piece);
    SubstringTransitive(Trim(piece), piece, text);
  }

  /** A payload is non-empty, trimmed and a contiguous piece of the reply. */
  lemma TryExtractSpec(text: string)
    ensures TryExtract(text).Some? ==>
              var out := TryExtract(text).value;
              out != [] && Trim(out) == out && IsSubstring(out, text)
  {
    if text != [] {
      match TryExtractBetween(text)
      case Some(inner) =>
        var span := TagSpan(text).value;
        TrimmedPieceSubstring(text, span.0, span.1);
        SanitizeSpec(inner);
        if SanitizeJson(inner).Some? {
          SubstringTransitive(SanitizeJson(inner).value, inner, text);
        }
      case None =>
        match TryExtractCodeFence(text)
        case Some(inner) =>
          var span := FenceSpan(text).value;
          TrimmedPieceSubstring(text, span.1, span.2);
          SanitizeSpec(inner);
          if SanitizeJson(inner).Some? {
            SubstringTransitive(SanitizeJson(inner).value, inner, text);
          }
        case None =>
    }
  }

  /** A JSON text: starts with a bracket and ends with a closing one. */
  predicate IsBracketed(j: string)
  {
    |j| > 0 && IsBracket(j[0]) && (j[|j| - 1] == '}' || j[|j| - 1] == ']')
  }

  /** A bracketed payload is its own sanitized form. */
  lemma SanitizeBracketed(j: string)
    requires IsBracketed(j)
    ensures Trim(j) == j && SanitizeJson(j) == Some(j)
  {
    TrimNonWhiteStart(j);
    assert TrimEnd(j) == j;
    assert Cleaned(j) == j;
    SanitizeAtBracket(j, 0);
    assert j[0..] == j;
  }

  /** Wrapping a payload in the tag pair, with anything after it, gives the payload back. */
  lemma TagRoundTrip(j: string, q: string)
    requires IsBracketed(j) && forall k :: !OccursAt(j, CloseTag, k)
    ensures TryExtract(OpenTag + j + CloseTag + q) == Some(j)
  {
    var text := OpenTag + j + CloseTag + q;
    var b := |OpenTag| + |j|;
    assert text[|OpenTag|..b] == j;
    assert OccursAt(text, OpenTag, 0) by {
      assert text[0..|OpenTag|] == OpenTag;
    }
    assert OccursAt(text, CloseTag, b) by {
      assert text[b..b + |CloseTag|] == CloseTag;
    }
    assert text[b - 1] == j[|j| - 1];
    NoOccurrenceWithin(text, CloseTag, |OpenTag|, j, b - 1);
    IndexOfSpec(text, CloseTag, |OpenTag|, b);
    assert TagSpan(text) == Some((|OpenTag|, b));
    SanitizeBracketed(j);
  }

  /** The fenced content of such a reply is the payload and its newline. */
  lemma FencedLayout(lang: string, j: string)
    requires forall i :: 0 <= i < |lang| ==> lang[i] != '\n'
    requires forall k :: !OccursAt(j, Fence, k)
    ensures var text := Fence + lang + "\n" + j + "\n" + Fence;
            var cs := |Fence| + |lang| + 1;
            && IsFenceSpan(text, 0, cs, cs + |j| + 1)
            && text[cs..cs + |j| + 1] == j + "\n"
  {
    var text := Fence + lang + "\n" + j + "\n" + Fence;
    var cs := |Fence| + |lang| + 1;
    var e := cs + |j|;
    assert text[cs..e] == j;
    assert text[e] == '\n';
    assert text[cs..e + 1] == j + "\n";
    assert OccursAt(text, Fence, 0) by {
      assert text[0..|Fence|] == Fence;
    }
    forall i | |Fence| <= i < cs - 1 ensures text[i] != '\n' {
      assert text[i] == lang[i - |Fence|];
    }
    NoOccurrenceWithin(text, Fence, cs, j, e);
    assert OccursAt(text, Fence, e + 1) by {
      assert text[e + 1..e + 1 + |Fence|] == Fence;
    }
  }

  /** Such a reply holds no `<JSON>` tag. */
  lemma FencedHasNoTag(lang: string, j: string)
    requires forall i :: 0 <= i < |lang| ==> lang[i] != '<'
    requires forall k :: !OccursAt(j, OpenTag, k)
    ensures forall k :: !OccursAt(Fence + lang + "\n" + j + "\n" + Fence, OpenTag, k)
  {
    var text := Fence + lang + "\n" + j + "\n" + Fence;
    var cs := |Fence| + |lang| + 1;
    var e := cs + |j|;
    assert text[cs..e] == j;
    assert text[e] == '\n';
    forall i | 0 <= i < cs || e <= i < |text| ensures text[i] != '<' {
      if |Fence| <= i < cs - 1 {
        assert text[i] == lang[i - |Fence|];
      }
    }
    NoOccurrenceWithin(text, OpenTag, cs, j, e);
    forall k | 0 <= k < cs || e <= k < |text| ensures !OccursAt(text, OpenTag, k) {
      if k + |OpenTag| <= |text| {
        assert text[k..k + |OpenTag|][0] == text[k];
      }
    }
  }

  /** Fencing a payload, after a language tag on the fence line, gives it back. */
  lemma FenceRoundTrip(lang: string, j: string)
    requires forall i :: 0 <= i < |lang| ==> lang[i] != '\n' && lang[i] != '<'
    requires IsBracketed(j)
    requires forall k :: !OccursAt(j, Fence, k)
    requires forall k :: !OccursAt(j, OpenTag, k)
    ensures TryExtract(Fence + lang + "\n" + j + "\n" + Fence) == Some(j)
  {
    var text := Fence + lang + "\n" + j + "\n" + Fence;
    var cs := |Fence| + |lang| + 1;
    FencedLayout(lang, j);
    FencedHasNoTag(lang, j);
    assert IndexOf(text, OpenTag, 0).None?;
    var body := text[cs..cs + |j| + 1];
    assert body == j + "\n";
    assert !IsBlank(body) by {
      assert !IsWhiteSpace(body[0]);
    }
    FallThroughToFence(text, 0, cs, cs + |j| + 1);
    assert Trim(body) == j by {
      assert TrimStart(body) == body;
      assert body[..|j|] == j;
      SanitizeBracketed(j);
    }
    SanitizeBracketed(j);
  }
}
