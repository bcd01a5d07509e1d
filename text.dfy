/**
 * Character classes and Python's `str.strip()`, as used for the column headers.
 */
module Text {

  /** Python's whitespace: `str.isspace()`, which is also what `\s` matches in a `str` regex. */
  predicate IsSpace(c: char) {
    || c == ' '
    || '\t' <= c <= '\r'
    || '\U{1C}' <= c <= '\U{1F}'
    || c == '\U{85}' || c == '\U{A0}' || c == '\U{1680}'
    || '\U{2000}' <= c <= '\U{200A}'
    || c == '\U{2028}' || c == '\U{2029}' || c == '\U{202F}' || c == '\U{205F}' || c == '\U{3000}'
  }

  predicate AllSpace(s: string) {
    forall i :: 0 <= i < |s| ==> IsSpace(s[i])
  }

  predicate IsDigit(c: char) {
    '0' <= c <= '9'
  }

  function DigitValue(c: char): (d: nat)
    requires IsDigit(c)
    ensures d <= 9
  {
    c as int - '0' as int
  }

  /** The first index at or after `i` that does not hold whitespace, or `|s|`. */
  function SkipSpaces(s: string, i: nat): (j: nat)
    requires i <= |s|
    ensures i <= j <= |s|
    ensures forall k :: i <= k < j ==> IsSpace(s[k])
    ensures j == |s| || !IsSpace(s[j])
    decreases |s| - i
  {
    if i < |s| && IsSpace(s[i]) then SkipSpaces(s, i + 1) else i
  }

  /** Walking back from `j` to no further than `lo`: the end of `s[lo..j]` once trailing whitespace is cut. */
  function SkipSpacesBack(s: string, lo: nat, j: nat): (k: nat)
    requires lo <= j <= |s|
    ensures lo <= k <= j
    ensures forall m :: k <= m < j ==> IsSpace(s[m])
    ensures k == lo || !IsSpace(s[k - 1])
  {
    if lo < j && IsSpace(s[j - 1]) then SkipSpacesBack(s, lo, j - 1) else j
  }

  /** Python's `str.strip()`: skip whitespace from the front, then from the back. */
  function Strip(s: string): (r: string)
    ensures |r| <= |s|
    ensures |s| > 0 && !IsSpace(s[0]) && !IsSpace(s[|s| - 1]) ==> r == s
  {
    var a := SkipSpaces(s, 0);
    s[a..SkipSpacesBack(s, a, |s|)]
  }

  /** `r` is `s` with `lead` whitespace characters cut from the front and only whitespace cut from the back. */
  ghost predicate IsTrimmedFrom(s: string, r: string, lead: nat) {
    && lead + |r| <= |s| && s[lead..lead + |r|] == r
    && AllSpace(s[..lead]) && AllSpace(s[lead + |r|..])
  }

  lemma SpacesBetween(s: string, a: nat, b: nat)
    requires a <= b <= |s|
    requires forall i :: a <= i < b ==> IsSpace(s[i])
    ensures AllSpace(s[a..b])
  {
    assert forall k :: 0 <= k < b - a ==> s[a..b][k] == s[a + k];
  }

  /**
   * What `str.strip()` promises: the result neither starts nor ends with
   * whitespace, and it is an infix of `s` with only whitespace cut off
   * either side.
   */
  lemma StripCutsOnlySpace(s: string)
    ensures var r := Strip(s); r == [] || (!IsSpace(r[0]) && !IsSpace(r[|r| - 1]))
    ensures exists lead :: IsTrimmedFrom(s, Strip(s), lead)
  {
    var a := SkipSpaces(s, 0);
    var b := SkipSpacesBack(s, a, |s|);
    SpacesBetween(s, 0, a);
    SpacesBetween(s, b, |s|);
    assert s[..a] == s[0..a] && s[b..] == s[b..|s|];
    assert IsTrimmedFrom(s, s[a..b], a);
  }

  lemma {:induction false} SkipSpacesUnique(s: string, i: nat, j: nat)
    requires i <= j <= |s|
    requires forall k :: i <= k < j ==> IsSpace(s[k])
    requires j == |s| || !IsSpace(s[j])
    ensures SkipSpaces(s, i) == j
    decreases j - i
  {
    if i < j {
      SkipSpacesUnique(s, i + 1, j);
    }
  }

  lemma {:induction false} SkipSpacesBackUnique(s: string, lo: nat, j: nat, k: nat)
    requires lo <= k <= j <= |s|
    requires forall m :: k <= m < j ==> IsSpace(s[m])
    requires k == lo || !IsSpace(s[k - 1])
    ensures SkipSpacesBack(s, lo, j) == k
    decreases j - k
  {
    if k < j {
      SkipSpacesBackUnique(s, lo, j - 1, k);
    }
  }

  /**
   * `s[a..b]` cuts nothing but whitespace off `s` and keeps no whitespace at
   * either of its ends.
   */
  ghost predicate StripWindow(s: string, a: nat, b: nat) {
    && a <= b <= |s|
    && (forall k :: 0 <= k < a ==> IsSpace(s[k]))
    && (forall k :: b <= k < |s| ==> IsSpace(s[k]))
    && (a == b || (!IsSpace(s[a]) && !IsSpace(s[b - 1])))
  }

  /** `str.strip()` is the only infix that cuts nothing but whitespace and keeps none at its ends. */
  lemma StripUnique(s: string, a: nat, b: nat)
    requires StripWindow(s, a, b)
    ensures Strip(s) == s[a..b]
  {
    if a < b {
      SkipSpacesUnique(s, 0, a);
      SkipSpacesBackUnique(s, a, |s|, b);
    } else {
      SkipSpacesUnique(s, 0, |s|);
    }
  }

  /** Cutting whitespace off either end before stripping changes nothing. */
  lemma StripAfterTrim(s: string, m: string, off: nat)
    requires IsTrimmedFrom(s, m, off)
    ensures Strip(s) == Strip(m)
  {
    TrimmedIndices(s, m, off);
    var a := SkipSpaces(m, 0);
    var b := SkipSpacesBack(m, a, |m|);
    StripIsWindow(m);
    assert Strip(m) == m[a..b];
    StripShifted(s, m, off, a, b);
  }

  /** The strip window of `m`, shifted by `off`, is what stripping `s` keeps. */
  lemma StripShifted(s: string, m: string, off: nat, a: nat, b: nat)
    requires off + |m| <= |s|
    requires forall k :: 0 <= k < |m| ==> s[off + k] == m[k]
    requires forall k :: 0 <= k < off ==> IsSpace(s[k])
    requires forall k :: off + |m| <= k < |s| ==> IsSpace(s[k])
    requires StripWindow(m, a, b) && Strip(m) == m[a..b]
    ensures Strip(s) == Strip(m)
  {
    WindowShifted(s, m, off, a, b);
    StripUnique(s, off + a, off + b);
    assert Strip(s) == m[a..b];
  }

  /** The window `Strip` keeps is a strip window. */
  lemma StripIsWindow(m: string)
    ensures var a := SkipSpaces(m, 0); StripWindow(m, a, SkipSpacesBack(m, a, |m|))
  {
  }

  lemma TrimmedIndices(s: string, m: string, off: nat)
    requires IsTrimmedFrom(s, m, off)
    ensures forall k :: 0 <= k < |m| ==> s[off + k] == m[k]
    ensures forall k :: 0 <= k < off ==> IsSpace(s[k])
    ensures forall k :: off + |m| <= k < |s| ==> IsSpace(s[k])
  {
    forall k | 0 <= k < |m| ensures s[off + k] == m[k] {
      assert s[off..off + |m|][k] == s[off + k];
    }
    forall k | 0 <= k < off ensures IsSpace(s[k]) {
      assert s[..off][k] == s[k];
    }
    forall k | off + |m| <= k < |s| ensures IsSpace(s[k]) {
      assert s[off + |m|..][k - off - |m|] == s[k];
    }
  }

  /** A strip window of `m` is one of `s` once `m` sits amid whitespace in `s`. */
  lemma WindowShifted(s: string, m: string, off: nat, a: nat, b: nat)
    requires off + |m| <= |s|
    requires forall k :: 0 <= k < |m| ==> s[off + k] == m[k]
    requires forall k :: 0 <= k < off ==> IsSpace(s[k])
    requires forall k :: off + |m| <= k < |s| ==> IsSpace(s[k])
    requires StripWindow(m, a, b)
    ensures StripWindow(s, off + a, off + b)
    ensures s[off + a..off + b] == m[a..b]
  {
    forall k | 0 <= k < off + a ensures IsSpace(s[k]) {
      if k >= off {
        assert s[k] == m[k - off];
      }
    }
    forall k | off + b <= k < |s| ensures IsSpace(s[k]) {
      if k < off + |m| {
        assert s[k] == m[k - off];
      }
    }
    assert a < b ==> s[off + a] == m[a] && s[off + b - 1] == m[b - 1];
    var u, v := s[off + a..off + b], m[a..b];
    forall k | 0 <= k < |u| ensures u[k] == v[k] {
      assert u[k] == s[off + (a + k)] && v[k] == m[a + k];
    }
  }

  /** Whitespace around a header cell makes no difference once it is stripped. */
  lemma StripIgnoresPadding(l: string, m: string, r: string)
    requires AllSpace(l) && AllSpace(r)
    ensures Strip(l + m + r) == Strip(m)
  {
    var s := l + m + r;
    assert s[..|l|] == l && s[|l|..|l| + |m|] == m && s[|l| + |m|..] == r;
    StripAfterTrim(s, m, |l|);
  }

  /** Stripping twice is stripping once. */
  lemma StripIdempotent(s: string)
    ensures Strip(Strip(s)) == Strip(s)
  {
    var r := Strip(s);
    StripCutsOnlySpace(s);
    assert StripWindow(r, 0, |r|);
    StripUnique(r, 0, |r|);
    assert r[0..|r|] == r;
  }
}
