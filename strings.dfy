/**
 * The handful of Python `str` operations the path prober relies on:
 * `startswith`, `endswith` and the argument-less `strip`.
 */
module Strings {

  /**
   * Whitespace as Python's `str.isspace` (and hence `str.strip()`) classifies it:
   * the ASCII controls TAB..CR and FS..US, SPACE, NEL, NO-BREAK SPACE, the
   * Unicode space separators and the line/paragraph separators.
   */
  predicate IsSpace(c: char)
  {
    || ('\t' <= c <= '\r')
    || ('\U{1C}' <= c <= '\U{1F}')
    || c == ' '
    || c == '\U{85}'
    || c == '\U{A0}'
    || c == '\U{1680}'
    || ('\U{2000}' <= c <= '\U{200A}')
    || c == '\U{2028}'
    || c == '\U{2029}'
    || c == '\U{202F}'
    || c == '\U{205F}'
    || c == '\U{3000}'
  }

  predicate AllSpace(s: string)
  {
    forall c | c in s :: IsSpace(c)
  }

  /** Neither end of `s` is whitespace: what `strip` leaves behind. */
  predicate IsStripped(s: string)
  {
    s == [] || (!IsSpace(s[0]) && !IsSpace(s[|s| - 1]))
  }

  /** Python's `s.startswith(prefix)`. */
  predicate StartsWith(s: string, prefix: string)
  {
    |prefix| <= |s| && s[..|prefix|] == prefix
  }

  /** Python's `s.endswith(suffix)`. */
  predicate EndsWith(s: string, suffix: string)
  {
    |suffix| <= |s| && s[|s| - |suffix|..] == suffix
  }

  /** `s` with its leading whitespace removed (Python's `lstrip()`). */
  function TrimStart(s: string): (r: string)
    ensures |r| <= |s|
    ensures r == [] || !IsSpace(r[0])
    decreases |s|
  {
    if s != [] && IsSpace(s[0]) then TrimStart(s[1..]) else s
  }

  /** `s` with its trailing whitespace removed (Python's `rstrip()`). */
  function TrimEnd(s: string): (r: string)
    ensures |r| <= |s|
    ensures r == [] || !IsSpace(r[|r| - 1])
    ensures r == [] || r[0] == s[0]
    decreases |s|
  {
    if s != [] && IsSpace(s[|s| - 1]) then TrimEnd(s[..|s| - 1]) else s
  }

  /** Python's argument-less `s.strip()`. */
  function Strip(s: string): (r: string)
    ensures IsStripped(r)
    ensures |r| <= |s|
  {
    TrimEnd(TrimStart(s))
  }

  /** `lstrip` removes a blank prefix and keeps the rest as it is. */
  lemma {:induction false} TrimStartSplits(s: string)
    ensures var n := |s| - |TrimStart(s)|;
      s == s[..n] + TrimStart(s) && AllSpace(s[..n])
    decreases |s|
  {
    if s != [] && IsSpace(s[0]) {
      var tail := s[1..];
      TrimStartSplits(tail);
      var n := |tail| - |TrimStart(tail)|;
      assert s[..n + 1] == [s[0]] + tail[..n];
      assert s == [s[0]] + tail;
    } else {
      assert s[..0] == [];
    }
  }

  /** `rstrip` removes a blank suffix and keeps the rest as it is. */
  lemma {:induction false} TrimEndSplits(s: string)
    ensures var n := |TrimEnd(s)|;
      s == TrimEnd(s) + s[n..] && AllSpace(s[n..])
    decreases |s|
  {
    if s != [] && IsSpace(s[|s| - 1]) {
      var init := s[..|s| - 1];
      TrimEndSplits(init);
      var n := |TrimEnd(init)|;
      assert s[n..] == init[n..] + [s[|s| - 1]];
      assert s == init + [s[|s| - 1]];
    } else {
      assert s[|s|..] == [];
    }
  }

  /** Stripping only removes whitespace: `s` is the stripped text with blank margins. */
  lemma StripDecomposes(s: string) returns (lead: string, trail: string)
    ensures s == lead + Strip(s) + trail
    ensures AllSpace(lead) && AllSpace(trail)
  {
    var t := TrimStart(s);
    lead := s[..|s| - |t|];
    trail := t[|TrimEnd(t)|..];
    TrimStartSplits(s);
    TrimEndSplits(t);
    Regroup(s, lead, t, TrimEnd(t), trail);
  }

  lemma Regroup(s: string, a: string, t: string, r: string, b: string)
    requires s == a + t && t == r + b
    ensures s == a + r + b
  {
  }

  lemma {:induction false} TrimStartOfBlankPrefix(a: string, x: string)
    requires AllSpace(a)
    requires x == [] || !IsSpace(x[0])
    ensures TrimStart(a + x) == x
    decreases |a|
  {
    if a != [] {
      assert (a + x)[1..] == a[1..] + x;
      TrimStartOfBlankPrefix(a[1..], x);
    }
  }

  lemma {:induction false} TrimEndOfBlankSuffix(x: string, b: string)
    requires AllSpace(b)
    requires x == [] || !IsSpace(x[|x| - 1])
    ensures TrimEnd(x + b) == x
    decreases |b|
  {
    if b != [] {
      assert (x + b)[..|x + b| - 1] == x + b[..|b| - 1];
      TrimEndOfBlankSuffix(x, b[..|b| - 1]);
    }
  }

  /**
   * `strip` is determined by what it must do: whenever `s` is a stripped
   * text `t` between two blank margins, `s.strip()` is exactly `t`.
   */
  lemma StripUnique(s: string, lead: string, t: string, trail: string)
    requires s == lead + t + trail
    requires AllSpace(lead) && AllSpace(trail)
    requires IsStripped(t)
    ensures Strip(s) == t
  {
    if t == [] {
      assert s == (lead + trail) + [];
      TrimStartOfBlankPrefix(lead + trail, []);
    } else {
      assert s == lead + (t + trail);
      TrimStartOfBlankPrefix(lead, t + trail);
      TrimEndOfBlankSuffix(t, trail);
    }
  }

  /** Stripping a stripped string changes nothing, so `strip` is idempotent. */
  lemma StripFixedPoint(s: string)
    ensures IsStripped(s) <==> Strip(s) == s
    ensures Strip(Strip(s)) == Strip(s)
  {
  }
}
