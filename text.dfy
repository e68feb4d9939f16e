/**
 * The .NET string primitives the core uses: whitespace classification,
 * Trim/TrimStart/TrimEnd, ordinal IndexOf and decimal formatting of integers.
 * A C# null string is represented by "", which every use in the core treats alike.
 */
module Text {
  import opened Wrappers

  /** char.IsWhiteSpace: categories Zs, Zl, Zp plus U+0009..U+000D and U+0085.
      The regex class \s and string.Trim use the same set. */
  predicate IsWhiteSpace(c: char)
  {
    ('\t' <= c <= '\r') || c == ' ' || c == '\U{0085}' || c == '\U{00A0}' ||
    c == '\U{1680}' || ('\U{2000}' <= c <= '\U{200A}') || c == '\U{2028}' ||
    c == '\U{2029}' || c == '\U{202F}' || c == '\U{205F}' || c == '\U{3000}'
  }

  /** string.IsNullOrWhiteSpace on a non-null string. */
  predicate IsBlank(s: string)
  {
    forall i :: 0 <= i < |s| ==> IsWhiteSpace(s[i])
  }

  /** pat occurs in s at position k. */
  predicate OccursAt(s: string, pat: string, k: int)
  {
    0 <= k && k + |pat| <= |s| && s[k..k + |pat|] == pat
  }

  /** s occurs in t at some offset. */
  ghost predicate IsSubstring(s: string, t: string)
  {
    exists k :: OccursAt(t, s, k)
  }

  lemma SubstringAt(s: string, t: string, k: int)
    requires OccursAt(t, s, k)
    ensures IsSubstring(s, t)
  {
  }

  lemma SubstringTransitive(r: string, s: string, t: string)
    requires IsSubstring(r, s) && IsSubstring(s, t)
    ensures IsSubstring(r, t)
  {
    var i :| OccursAt(s, r, i);
    var j :| OccursAt(t, s, j);
    forall m | 0 <= m < |r| ensures t[j + i + m] == r[m] {
      assert s[i + m] == r[m];
      assert t[j + (i + m)] == s[i + m];
    }
    assert t[j + i..j + i + |r|] == r;
    SubstringAt(r, t, j + i);
  }

  /** string.TrimStart(): drops the maximal whitespace prefix. */
  function TrimStart(s: string): (r: string)
    ensures |r| <= |s|
    ensures r == [] || !IsWhiteSpace(r[0])
  {
    if |s| > 0 && IsWhiteSpace(s[0]) then TrimStart(s[1..]) else s
  }

  /** What TrimStart drops is whitespace, and what it keeps is a suffix. */
  lemma {:induction false} TrimStartSpec(s: string)
    ensures TrimStart(s) == s[|s| - |TrimStart(s)|..]
    ensures forall i :: 0 <= i < |s| - |TrimStart(s)| ==> IsWhiteSpace(s[i])
  {
    if |s| > 0 && IsWhiteSpace(s[0]) {
      TrimStartSpec(s[1..]);
      forall i | 1 <= i < |s| - |TrimStart(s)| ensures IsWhiteSpace(s[i]) {
        assert s[i] == s[1..][i - 1];
      }
    }
  }

  /** string.TrimEnd(): drops the maximal whitespace suffix. */
  function TrimEnd(s: string): (r: string)
    ensures |r| <= |s|
    ensures r == [] || !IsWhiteSpace(r[|r| - 1])
  {
    if |s| > 0 && IsWhiteSpace(s[|s| - 1]) then TrimEnd(s[..|s| - 1]) else s
  }

  /** What TrimEnd drops is whitespace, and what it keeps is a prefix. */
  lemma {:induction false} TrimEndSpec(s: string)
    ensures TrimEnd(s) == s[..|TrimEnd(s)|]
    ensures forall i :: |TrimEnd(s)| <= i < |s| ==> IsWhiteSpace(s[i])
  {
    if |s| > 0 && IsWhiteSpace(s[|s| - 1]) {
      TrimEndSpec(s[..|s| - 1]);
      forall i | |TrimEnd(s)| <= i < |s| - 1 ensures IsWhiteSpace(s[i]) {
        assert s[i] == s[..|s| - 1][i];
      }
    }
  }

  /** string.Trim(). */
  function Trim(s: string): string
  {
    TrimEnd(TrimStart(s))
  }

  /** Trim keeps a contiguous slice of its input whose ends are not whitespace,
      and it yields "" exactly for blank input. */
  lemma TrimSpec(s: string)
    ensures IsSubstring(Trim(s), s)
    ensures Trim(s) == [] || (!IsWhiteSpace(Trim(s)[0]) && !IsWhiteSpace(Trim(s)[|Trim(s)| - 1]))
    ensures Trim(s) == [] <==> IsBlank(s)
  {
    var a := TrimStart(s);
    var r := TrimEnd(a);
    var k := |s| - |a|;
    TrimStartSpec(s);
    TrimEndSpec(a);
    assert s[k..k + |r|] == a[..|r|];
    SubstringAt(r, s, k);
    if r != [] {
      assert r[0] == a[0];
    }
  }

  /** Trimming a string that is already trimmed changes nothing. */
  lemma TrimIdempotent(s: string)
    ensures Trim(Trim(s)) == Trim(s)
  {
    var r := Trim(s);
    TrimSpec(s);
    assert TrimStart(r) == r;
    assert TrimEnd(r) == r;
  }

  /** A string that starts with a non-whitespace character is only trimmed at its end. */
  lemma TrimNonWhiteStart(s: string)
    requires s != [] && !IsWhiteSpace(s[0])
    ensures Trim(s) == TrimEnd(s) && Trim(s) != [] && Trim(s)[0] == s[0]
  {
    assert TrimStart(s) == s;
  }

  /** string.TrimStart(c): drops every leading occurrence of c. */
  function TrimStartChar(s: string, c: char): (r: string)
    ensures |r| <= |s|
    ensures r == [] || r[0] != c
  {
    if |s| > 0 && s[0] == c then TrimStartChar(s[1..], c) else s
  }

  lemma {:induction false} TrimStartCharSpec(s: string, c: char)
    ensures TrimStartChar(s, c) == s[|s| - |TrimStartChar(s, c)|..]
    ensures forall i :: 0 <= i < |s| - |TrimStartChar(s, c)| ==> s[i] == c
  {
    if |s| > 0 && s[0] == c {
      TrimStartCharSpec(s[1..], c);
      forall i | 1 <= i < |s| - |TrimStartChar(s, c)| ensures s[i] == c {
        assert s[i] == s[1..][i - 1];
      }
    }
  }

  /** string.TrimEnd(c): drops every trailing occurrence of c. */
  function TrimEndChar(s: string, c: char): (r: string)
    ensures |r| <= |s|
    ensures r == [] || r[|r| - 1] != c
  {
    if |s| > 0 && s[|s| - 1] == c then TrimEndChar(s[..|s| - 1], c) else s
  }

  lemma {:induction false} TrimEndCharSpec(s: string, c: char)
    ensures TrimEndChar(s, c) == s[..|TrimEndChar(s, c)|]
    ensures forall i :: |TrimEndChar(s, c)| <= i < |s| ==> s[i] == c
  {
    if |s| > 0 && s[|s| - 1] == c {
      TrimEndCharSpec(s[..|s| - 1], c);
      forall i | |TrimEndChar(s, c)| <= i < |s| - 1 ensures s[i] == c {
        assert s[i] == s[..|s| - 1][i];
      }
    }
  }

  /** Ordinal s.IndexOf(pat, from): the first occurrence at or after from. */
  function IndexOf(s: string, pat: string, from: nat): (r: Option<nat>)
    requires |pat| > 0
    ensures r.Some? ==> from <= r.value && OccursAt(s, pat, r.value)
    ensures r.Some? ==> forall k :: from <= k < r.value ==> !OccursAt(s, pat, k)
    ensures r.None? ==> forall k :: from <= k ==> !OccursAt(s, pat, k)
    decreases |s| - from
  {
    if from + |pat| > |s| then None
    else if s[from..from + |pat|] == pat then Some(from)
    else IndexOf(s, pat, from + 1)
  }

  /** s.IndexOf(c, from) for a single character. */
  function IndexOfChar(s: string, c: char, from: nat): (r: Option<nat>)
    ensures r.Some? ==> from <= r.value < |s| && s[r.value] == c
    ensures r.Some? ==> forall k :: from <= k < r.value ==> s[k] != c
    ensures r.None? ==> forall k :: from <= k < |s| ==> s[k] != c
    decreases |s| - from
  {
    if from >= |s| then None
    else if s[from] == c then Some(from)
    else IndexOfChar(s, c, from + 1)
  }

  /** k is the first occurrence of pat in s at or after from. */
  predicate IsFirstFrom(s: string, pat: string, from: nat, k: nat)
  {
    from <= k && OccursAt(s, pat, k) && forall j :: from <= j < k ==> !OccursAt(s, pat, j)
  }

  /** IndexOf finds exactly the first occurrence. */
  lemma IndexOfSpec(s: string, pat: string, from: nat, k: nat)
    requires |pat| > 0
    ensures IndexOf(s, pat, from) == Some(k) <==> IsFirstFrom(s, pat, from, k)
  {
    if IsFirstFrom(s, pat, from, k) {
      match IndexOf(s, pat, from)
      case None =>
      case Some(m) => assert !(m < k) && !(k < m);
    }
  }

  /** No occurrence of pat starts inside a piece u of s that holds none, when a
      character next to u's end is not in pat. */
  lemma NoOccurrenceWithin(s: string, pat: string, a: nat, u: string, p: nat)
    requires a + |u| <= |s| && s[a..a + |u|] == u
    requires forall k :: !OccursAt(u, pat, k)
    requires a <= p < |s| && a + |u| <= p + 1 && p <= a + |u|
    requires forall i :: 0 <= i < |pat| ==> pat[i] != s[p]
    ensures forall k :: a <= k < a + |u| ==> !OccursAt(s, pat, k)
  {
    var b := a + |u|;
    forall i | a <= i < b ensures s[i] == u[i - a] {
      assert s[a..b][i - a] == s[i];
    }
    forall k | a <= k < b ensures !OccursAt(s, pat, k) {
      if k + |pat| <= b {
        assert s[k..k + |pat|] == u[k - a..k - a + |pat|];
        assert !OccursAt(u, pat, k - a);
      } else if k + |pat| <= |s| {
        assert s[k..k + |pat|][p - k] == s[p];
      }
    }
  }

  /** k is the first position of c in s at or after from. */
  predicate IsFirstCharFrom(s: string, c: char, from: nat, k: nat)
  {
    from <= k < |s| && s[k] == c && forall j :: from <= j < k ==> s[j] != c
  }

  lemma IndexOfCharSpec(s: string, c: char, from: nat, k: nat)
    ensures IndexOfChar(s, c, from) == Some(k) <==> IsFirstCharFrom(s, c, from, k)
  {
    if IsFirstCharFrom(s, c, from, k) {
      match IndexOfChar(s, c, from)
      case None =>
      case Some(m) => assert !(m < k) && !(k < m);
    }
  }

  function DigitChar(d: nat): char
    requires d < 10
  {
    "0123456789"[d]
  }

  function NatToString(n: nat): (r: string)
    ensures |r| > 0 && forall i :: 0 <= i < |r| ==> '0' <= r[i] <= '9'
  {
    if n < 10 then [DigitChar(n)] else NatToString(n / 10) + [DigitChar(n % 10)]
  }

  /** Decimal formatting of an integer, as string interpolation does. */
  function IntToString(n: int): (r: string)
    ensures |r| > 0 && !IsBlank(r)
  {
    var r := if n < 0 then "-" + NatToString(-n) else NatToString(n);
    assert !IsWhiteSpace(r[0]);
    r
  }
}
