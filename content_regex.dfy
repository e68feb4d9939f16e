/**
 * The reply-content pattern both HTTP backends search with,
 * "content"\s*:\s*"((?:\\.|[^"\\])*)" in single-line mode, as a hand-written
 * matcher.  Every part of the pattern is deterministic: each \s* can only stop
 * at the first non-whitespace character (':' and '"' are not whitespace), and
 * the group loop consumes a backslash together with the next character and
 * any other non-quote character alone, so backtracking never finds a second
 * way to match.  MatchesFrom enumerates the matches the way Regex.Matches
 * does: left to right, not overlapping, retrying one character further after
 * a failed attempt.
 */
module ContentRegex {
  import opened Wrappers
  import opened Text
  import opened VllmStreamDeltaParser

  /** The literal `"content"` the pattern starts with. */
  const ContentKey: string := "\"content\""

  /** The language of the group, (?:\\.|[^"\\])*: escaped pairs and single
      characters other than '"' and '\'. */
  predicate IsGroupBody(t: string)
    decreases |t|
  {
    t == [] ||
    (t[0] == '\\' && |t| >= 2 && IsGroupBody(t[2..])) ||
    (t[0] != '"' && t[0] != '\\' && IsGroupBody(t[1..]))
  }

  /** A captured group: the match's group is s[start..end], and the match ends at end + 1. */
  datatype Span = Span(start: nat, end: nat)

  /** Where an attempt is after the key: in the \s* before ':', in the \s*
      before the opening quote, or inside the group that began at start. */
  datatype Stage = BeforeColon | AfterColon | InGroup(start: nat)

  /** The rest of an attempt from position j, one character at a time. */
  function Attempt(s: string, j: nat, st: Stage): (r: Option<Span>)
    ensures r.Some? ==> j <= r.value.end < |s|
    ensures r.Some? && st.InGroup? ==> r.value.start == st.start
    ensures r.Some? && !st.InGroup? ==> j < r.value.start <= r.value.end
    decreases |s| - j
  {
    if j >= |s| then None
    else
      match st
      case BeforeColon =>
        if IsWhiteSpace(s[j]) then Attempt(s, j + 1, BeforeColon)
        else if s[j] == ':' then Attempt(s, j + 1, AfterColon)
        else None
      case AfterColon =>
        if IsWhiteSpace(s[j]) then Attempt(s, j + 1, AfterColon)
        else if s[j] == '"' then Attempt(s, j + 1, InGroup(j + 1))
        else None
      case InGroup(g) =>
        if s[j] == '"' then Some(Span(g, j))
        else if s[j] == '\\' then (if j + 1 < |s| then Attempt(s, j + 2, st) else None)
        else Attempt(s, j + 1, st)
  }

  /** Inside the group the attempt stops exactly where a group body is followed
      by a quote: there is one such place, and the attempt finds it. */
  lemma {:induction false} GroupSpec(s: string, j: nat, g: nat, e: nat)
    ensures Attempt(s, j, InGroup(g)) == Some(Span(g, e)) <==>
              j <= e < |s| && s[e] == '"' && IsGroupBody(s[j..e])
    decreases |s| - j
  {
    if j < |s| && s[j] != '"' {
      var d := if s[j] == '\\' then 2 else 1;
      if j + d <= |s| {
        GroupSpec(s, j + d, g, e);
        if j + d <= e < |s| {
          assert s[j..e][d..] == s[j + d..e];
        }
      }
      if j <= e < |s| && e < j + d {
        assert s[j..e] == [] || (|s[j..e]| == 1 && s[j..e][0] == '\\');
      }
    }
  }

  /** The \s* before the opening quote, then the group. */
  lemma {:induction false} AfterColonSpec(s: string, j: nat, m: Span)
    ensures Attempt(s, j, AfterColon) == Some(m) <==>
              j < m.start <= |s| && (forall k :: j <= k < m.start - 1 ==> IsWhiteSpace(s[k])) &&
              s[m.start - 1] == '"' && Attempt(s, m.start, InGroup(m.start)) == Some(m)
    decreases |s| - j
  {
    if j < |s| && IsWhiteSpace(s[j]) {
      AfterColonSpec(s, j + 1, m);
    }
  }

  /** pat's ':' is at a: only whitespace lies between j and a. */
  predicate IsColonAt(s: string, j: nat, a: nat)
  {
    j <= a < |s| && (forall k :: j <= k < a ==> IsWhiteSpace(s[k])) && s[a] == ':'
  }

  /** The \s* before ':' can only stop at the first non-whitespace character. */
  lemma {:induction false} BeforeColonComplete(s: string, j: nat, a: nat)
    requires IsColonAt(s, j, a)
    ensures Attempt(s, j, BeforeColon) == Attempt(s, a + 1, AfterColon)
    decreases a - j
  {
    if j < a {
      BeforeColonComplete(s, j + 1, a);
    }
  }

  lemma {:induction false} BeforeColonSound(s: string, j: nat) returns (a: nat)
    requires Attempt(s, j, BeforeColon).Some?
    ensures IsColonAt(s, j, a) && Attempt(s, j, BeforeColon) == Attempt(s, a + 1, AfterColon)
    decreases |s| - j
  {
    if IsWhiteSpace(s[j]) {
      a := BeforeColonSound(s, j + 1);
    } else {
      a := j;
    }
  }

  /** The attempt at position p. */
  function MatchAt(s: string, p: nat): (r: Option<Span>)
    ensures r.Some? ==> p < r.value.start <= r.value.end < |s|
  {
    if OccursAt(s, ContentKey, p) then Attempt(s, p + |ContentKey|, BeforeColon) else None
  }

  /** The part of the pattern before the group: `"content"` at p, whitespace,
      ':' at a, whitespace, and the opening quote just before g. */
  predicate IsMemberOpening(s: string, p: nat, a: nat, g: nat)
  {
    OccursAt(s, ContentKey, p) && IsColonAt(s, p + |ContentKey|, a) && a + 1 < g <= |s| &&
    (forall k :: a + 1 <= k < g - 1 ==> IsWhiteSpace(s[k])) && s[g - 1] == '"'
  }

  /** The pattern matches at p with its ':' at a and its group at m. */
  predicate IsMatchWith(s: string, p: nat, a: nat, m: Span)
  {
    IsMemberOpening(s, p, a, m.start) && m.start <= m.end < |s| &&
    IsGroupBody(s[m.start..m.end]) && s[m.end] == '"'
  }

  lemma MatchAtSound(s: string, p: nat) returns (a: nat)
    requires MatchAt(s, p).Some?
    ensures IsMatchWith(s, p, a, MatchAt(s, p).value)
  {
    var m := MatchAt(s, p).value;
    a := BeforeColonSound(s, p + |ContentKey|);
    AfterColonSpec(s, a + 1, m);
    GroupSpec(s, m.start, m.start, m.end);
  }

  lemma MatchAtComplete(s: string, p: nat, a: nat, m: Span)
    requires IsMatchWith(s, p, a, m)
    ensures MatchAt(s, p) == Some(m)
  {
    BeforeColonComplete(s, p + |ContentKey|, a);
    GroupSpec(s, m.start, m.start, m.end);
    AfterColonSpec(s, a + 1, m);
  }

  /** The attempt at p succeeds with group m exactly when the pattern matches there. */
  lemma MatchAtSpec(s: string, p: nat, m: Span)
    ensures MatchAt(s, p) == Some(m) <==> exists a :: IsMatchWith(s, p, a, m)
  {
    if MatchAt(s, p) == Some(m) {
      var a := MatchAtSound(s, p);
    }
    if exists a :: IsMatchWith(s, p, a, m) {
      var a :| IsMatchWith(s, p, a, m);
      MatchAtComplete(s, p, a, m);
    }
  }

  /** Regex.Matches from position p. */
  function MatchesFrom(s: string, p: nat): (r: seq<Span>)
    ensures forall k :: 0 <= k < |r| ==> p < r[k].start <= r[k].end < |s|
    decreases |s| - p
  {
    if p >= |s| then []
    else
      match MatchAt(s, p)
      case None => MatchesFrom(s, p + 1)
      case Some(m) => [m] + MatchesFrom(s, m.end + 1)
  }

  lemma MatchesStep(s: string, p: nat, m: Span)
    requires MatchAt(s, p) == Some(m)
    ensures MatchesFrom(s, p) == [m] + MatchesFrom(s, m.end + 1)
  {
  }

  lemma LastGroupOfSingle(body: string, m: Span)
    requires MatchesFrom(body, 0) == [m]
    ensures m.start <= m.end <= |body| && LastGroup(body) == Some(body[m.start..m.end])
  {
    var ms := MatchesFrom(body, 0);
    assert |ms| == 1 && ms[0] == m;
  }

  function LastOf(ms: seq<Span>): Option<Span>
  {
    if ms == [] then None else Some(ms[|ms| - 1])
  }

  /** The group of the last match, or None when nothing matches. */
  function LastGroup(body: string): (r: Option<string>)
  {
    var ms := MatchesFrom(body, 0);
    if ms == [] then None
    else
      var m := ms[|ms| - 1];
      Some(body[m.start..m.end])
  }

  /** The decoded group of the last match, or None when nothing matches. */
  function LastContent(body: string): Option<string>
  {
    match LastGroup(body)
    case None => None
    case Some(g) => Some(Unescaped(g))
  }

  /** Every match starts with a quote, so a stretch without one holds no match. */
  lemma {:induction false} MatchesSkipNoQuote(s: string, p: nat, q: nat)
    requires p <= q <= |s|
    requires forall k :: p <= k < q ==> s[k] != '"'
    ensures MatchesFrom(s, p) == MatchesFrom(s, q)
    decreases q - p
  {
    if p < q {
      assert !OccursAt(s, ContentKey, p) by {
        assert ContentKey[0] == '"';
        if p + |ContentKey| <= |s| {
          assert s[p..p + |ContentKey|][0] == s[p];
        }
      }
      MatchesSkipNoQuote(s, p + 1, q);
    }
  }

  /** A body without a quote has no content. */
  lemma NoQuoteNoContent(body: string)
    requires forall k :: 0 <= k < |body| ==> body[k] != '"'
    ensures LastContent(body) == None
  {
    MatchesSkipNoQuote(body, 0, |body|);
  }

  lemma {:induction false} GroupBodyConcat(a: string, b: string)
    requires IsGroupBody(a) && IsGroupBody(b)
    ensures IsGroupBody(a + b)
    decreases |a|
  {
    if a == [] {
      assert a + b == b;
    } else if a[0] == '\\' {
      GroupBodyConcat(a[2..], b);
      assert (a + b)[2..] == a[2..] + b;
      assert (a + b)[0] == '\\' && |a + b| >= 2;
    } else {
      GroupBodyConcat(a[1..], b);
      assert (a + b)[1..] == a[1..] + b;
      assert (a + b)[0] == a[0];
    }
  }

  /** A `\u00XX` escape is a group body. */
  lemma UnicodeEscapeGroupBody(h1: char, h2: char)
    requires h1 != '"' && h1 != '\\' && h2 != '"' && h2 != '\\'
    ensures IsGroupBody("\\u00" + [h1, h2])
  {
    var t := "\\u00" + [h1, h2];
    var t2, t1 := "00" + [h1, h2], "0" + [h1, h2];
    assert IsGroupBody([h2]) by {
      assert [h2][1..] == [];
    }
    assert IsGroupBody([h1, h2]) by {
      assert [h1, h2][1..] == [h2];
    }
    assert IsGroupBody(t1) by {
      assert t1[1..] == [h1, h2];
    }
    assert IsGroupBody(t2) by {
      assert t2[1..] == t1;
    }
    assert t[2..] == t2;
  }

  lemma EscapeCharGroupBody(c: char)
    ensures IsGroupBody(EscapeChar(c))
  {
    var e := EscapeChar(c);
    if c == '\\' || c == '"' || c == '\n' || c == '\r' || c == '\t' || c == '\U{0008}' || c == '\U{000C}' {
      assert |e| == 2 && e[0] == '\\' && e[2..] == [];
    } else if c < ' ' {
      var h1 := HexDigitChar(c as nat / 16);
      var h2 := HexDigitChar(c as nat % 16);
      HexDigitRoundTrip(c as nat / 16);
      HexDigitRoundTrip(c as nat % 16);
      UnicodeEscapeGroupBody(h1, h2);
    } else {
      assert e == [c];
    }
  }

  /** Whatever a JSON producer writes inside a string literal is a group body. */
  lemma {:induction false} JsonEscapeGroupBody(x: string)
    ensures IsGroupBody(JsonEscape(x))
  {
    if x != [] {
      EscapeCharGroupBody(x[0]);
      JsonEscapeGroupBody(x[1..]);
      GroupBodyConcat(EscapeChar(x[0]), JsonEscape(x[1..]));
    }
  }

  /** The opening of a "content" member: the key, blanks, ':', blanks and the opening quote. */
  function MemberHead(w1: string, w2: string): string
  {
    ContentKey + w1 + ":" + w2 + "\""
  }

  /** Where the parts of a member head lie once it is written at the end of pre. */
  lemma MemberHeadOpening(pre: string, w1: string, w2: string, rest: string)
    requires IsBlank(w1) && IsBlank(w2)
    ensures IsMemberOpening(pre + MemberHead(w1, w2) + rest, |pre|, |pre| + |ContentKey| + |w1|,
                            |pre| + |MemberHead(w1, w2)|)
  {
    var s := pre + MemberHead(w1, w2) + rest;
    var p := |pre|;
    var a := p + |ContentKey| + |w1|;
    assert s == pre + ContentKey + w1 + ":" + w2 + "\"" + rest;
    assert s[p..p + |ContentKey|] == ContentKey;
    forall k | p + |ContentKey| <= k < a ensures IsWhiteSpace(s[k]) {
      assert s[k] == w1[k - p - |ContentKey|];
    }
    forall k | a + 1 <= k < a + 1 + |w2| ensures IsWhiteSpace(s[k]) {
      assert s[k] == w2[k - a - 1];
    }
  }

  /** The reply whose last quoted text is a "content" member holding x, encoded,
      with nothing but the member's opening between p and the group at g. */
  lemma ContentAt(body: string, p: nat, a: nat, g: nat, x: string)
    requires IsMemberOpening(body, p, a, g)
    requires g + |JsonEscape(x)| < |body| && body[g..g + |JsonEscape(x)|] == JsonEscape(x)
    requires body[g + |JsonEscape(x)|] == '"'
    requires forall k :: 0 <= k < p ==> body[k] != '"'
    requires forall k :: g + |JsonEscape(x)| < k < |body| ==> body[k] != '"'
    ensures LastContent(body) == Some(x)
  {
    var e := JsonEscape(x);
    var m := Span(g, g + |e|);
    assert MatchAt(body, p) == Some(m) by {
      JsonEscapeGroupBody(x);
      MatchAtComplete(body, p, a, m);
    }
    assert MatchesFrom(body, m.end + 1) == [] by {
      MatchesSkipNoQuote(body, m.end + 1, |body|);
    }
    assert MatchesFrom(body, p) == [m] by {
      MatchesStep(body, p, m);
    }
    assert MatchesFrom(body, 0) == [m] by {
      MatchesSkipNoQuote(body, 0, p);
    }
    LastGroupOfSingle(body, m);
    UnescapeJsonEscape(x);
  }

  /** Where the parts of `pre + h + e + "\"" + post` lie. */
  lemma MemberParts(body: string, pre: string, h: string, e: string, post: string)
    requires body == pre + h + e + "\"" + post
    ensures |body| == |pre| + |h| + |e| + 1 + |post|
    ensures forall k :: 0 <= k < |pre| ==> body[k] == pre[k]
    ensures body[|pre| + |h|..|pre| + |h| + |e|] == e && body[|pre| + |h| + |e|] == '"'
    ensures forall k :: |pre| + |h| + |e| < k < |body| ==> body[k] == post[k - |pre| - |h| - |e| - 1]
    ensures body == pre + h + (e + "\"" + post)
  {
  }

  /**
   * Reading back what a JSON producer wrote: when the reply's last quoted
   * text is a "content" member holding x, encoded, the extracted content is
   * x.  Quotes before the member and after it are excluded, since the
   * pattern could also match there.
   */
  lemma ContentRoundTrip(pre: string, w1: string, w2: string, x: string, post: string)
    requires IsBlank(w1) && IsBlank(w2)
    requires forall k :: 0 <= k < |pre| ==> pre[k] != '"'
    requires forall k :: 0 <= k < |post| ==> post[k] != '"'
    ensures LastContent(pre + MemberHead(w1, w2) + JsonEscape(x) + "\"" + post) == Some(x)
  {
    var h := MemberHead(w1, w2);
    var e := JsonEscape(x);
    var body := pre + h + e + "\"" + post;
    var g := |pre| + |h|;
    MemberParts(body, pre, h, e, post);
    MemberHeadOpening(pre, w1, w2, e + "\"" + post);
    ContentAt(body, |pre|, |pre| + |ContentKey| + |w1|, g, x);
  }
}
