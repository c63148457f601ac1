/**
 The two pieces of Python's string library the monitor relies on:
 `str.strip()` with no argument, and `re.search` with a pattern that has no
 regular-expression metacharacters, which is an unanchored, case-sensitive
 substring test.
 */
module PyText {

  /** Python's `str.isspace` for one character: general category Zs or
      bidirectional class WS, B or S. */
  predicate IsSpace(c: char) {
    || ('\t' <= c <= '\r')                 // U+0009 .. U+000D
    || ('\U{1C}' <= c <= '\U{1F}')         // information separators
    || c == ' '
    || c == '\U{85}' || c == '\U{A0}' || c == '\U{1680}'
    || ('\U{2000}' <= c <= '\U{200A}')
    || c == '\U{2028}' || c == '\U{2029}'
    || c == '\U{202F}' || c == '\U{205F}' || c == '\U{3000}'
  }

  predicate AllSpace(s: string) {
    forall k :: 0 <= k < |s| ==> IsSpace(s[k])
  }

  /** Every character of `s` at an index in [lo, hi) is whitespace. */
  predicate SpaceBetween(s: string, lo: int, hi: int)
    requires 0 <= lo <= hi <= |s|
  {
    forall k :: lo <= k < hi ==> IsSpace(s[k])
  }

  /** True when `r` has no whitespace at either end. */
  predicate Trimmed(r: string) {
    r == [] || (!IsSpace(r[0]) && !IsSpace(r[|r| - 1]))
  }

  /** The left scan of `str.strip`: from `i`, the index of the first
      non-space character, or |s| when there is none. */
  function FirstNonSpace(s: string, i: nat): (n: nat)
    requires i <= |s|
    ensures i <= n <= |s| && SpaceBetween(s, i, n)
    ensures n < |s| ==> !IsSpace(s[n])
    decreases |s| - i
  {
    if i < |s| && IsSpace(s[i]) then FirstNonSpace(s, i + 1) else i
  }

  /** The right scan of `str.strip`: moving down from `j` but not below
      `lo`, the index just past the last non-space character. */
  function EndOfNonSpace(s: string, lo: nat, j: nat): (n: nat)
    requires lo <= j <= |s|
    ensures lo <= n <= j && SpaceBetween(s, n, j)
    ensures n > lo ==> !IsSpace(s[n - 1])
    decreases j
  {
    if j > lo && IsSpace(s[j - 1]) then EndOfNonSpace(s, lo, j - 1) else j
  }

  /** `s.strip()`: the infix of `s` left after removing whitespace from both
      ends; it is empty exactly when `s` is all whitespace. */
  function Strip(s: string): (r: string)
    ensures Trimmed(r)
    ensures r == [] <==> AllSpace(s)
  {
    var lo := FirstNonSpace(s, 0);
    var hi := EndOfNonSpace(s, lo, |s|);
    assert lo < |s| ==> hi > lo;
    assert hi == lo ==> AllSpace(s) by {
      if hi == lo {
        assert SpaceBetween(s, 0, lo);
      }
    }
    s[lo..hi]
  }

  /** What Strip removes is whitespace: the result is the infix of `s`
      between a whitespace prefix and a whitespace suffix. */
  lemma StripIsInfix(s: string)
    ensures var r := Strip(s);
      exists i :: 0 <= i <= |s| - |r| && r == s[i..i + |r|]
                  && SpaceBetween(s, 0, i) && SpaceBetween(s, i + |r|, |s|)
  {
    var lo := FirstNonSpace(s, 0);
    var hi := EndOfNonSpace(s, lo, |s|);
    assert Strip(s) == s[lo..hi];
    assert SpaceBetween(s, 0, lo) && SpaceBetween(s, hi, |s|);
  }

  /** Removing whitespace from the front stops at the first non-space. */
  lemma {:induction false} FirstNonSpaceAt(s: string, i: nat, n: nat)
    requires i <= n <= |s| && SpaceBetween(s, i, n) && (n < |s| ==> !IsSpace(s[n]))
    ensures FirstNonSpace(s, i) == n
    decreases n - i
  {
    if i < n {
      FirstNonSpaceAt(s, i + 1, n);
    }
  }

  /** Removing whitespace from the back stops at the last non-space. */
  lemma {:induction false} EndOfNonSpaceAt(s: string, lo: nat, j: nat, n: nat)
    requires lo <= n <= j <= |s| && SpaceBetween(s, n, j) && (n > lo ==> !IsSpace(s[n - 1]))
    ensures EndOfNonSpace(s, lo, j) == n
    decreases j - n
  {
    if n < j {
      EndOfNonSpaceAt(s, lo, j - 1, n);
    }
  }

  /** Strip is determined by its contract: whatever surrounds a trimmed
      string, as long as it is whitespace, is exactly what Strip removes. */
  lemma StripExact(p: string, m: string, q: string)
    requires AllSpace(p) && AllSpace(q) && Trimmed(m)
    ensures Strip(p + m + q) == m
  {
    var s := p + m + q;
    assert forall k :: 0 <= k < |p| ==> s[k] == p[k];
    assert forall k :: 0 <= k < |m| ==> s[|p| + k] == m[k];
    assert forall k :: 0 <= k < |q| ==> s[|p| + |m| + k] == q[k];
    if m == [] {
      FirstNonSpaceAt(s, 0, |s|);
      assert s[|s|..|s|] == [];
    } else {
      FirstNonSpaceAt(s, 0, |p|);
      EndOfNonSpaceAt(s, |p|, |s|, |p| + |m|);
      assert s[|p|..|p| + |m|] == m;
    }
  }

  lemma StripIdempotent(s: string)
    ensures Strip(Strip(s)) == Strip(s)
  {
    StripExact([], Strip(s), []);
    assert [] + Strip(s) + [] == Strip(s);
  }

  /** `pat` occurs in `s` starting at index `i`. */
  predicate OccursAt(s: string, pat: string, i: int) {
    0 <= i && i + |pat| <= |s| && s[i..i + |pat|] == pat
  }

  lemma OccursShift(s: string, pat: string, i: int)
    requires |s| > 0 && 0 <= i
    ensures OccursAt(s[1..], pat, i) <==> OccursAt(s, pat, i + 1)
  {
    if 0 <= i && i + |pat| <= |s| - 1 {
      assert s[1..][i..i + |pat|] == s[i + 1..i + 1 + |pat|];
    }
  }

  /** `re.search(pat, s)` is truthy, for a literal pattern `pat`: the
      pattern matches at the start of `s` or somewhere further on. */
  predicate Contains(s: string, pat: string)
    decreases |s|
  {
    |pat| <= |s| && (s[..|pat|] == pat || Contains(s[1..], pat))
  }

  /** The search is unanchored: it succeeds exactly when the pattern
      occurs at some index. */
  lemma {:induction false} ContainsIff(s: string, pat: string)
    ensures Contains(s, pat) <==> exists i :: OccursAt(s, pat, i)
    decreases |s|
  {
    if |pat| > |s| {
      assert forall i :: !OccursAt(s, pat, i);
    } else if s[..|pat|] == pat {
      assert OccursAt(s, pat, 0);
    } else {
      ContainsIff(s[1..], pat);
      if exists i :: OccursAt(s[1..], pat, i) {
        var i :| OccursAt(s[1..], pat, i);
        OccursShift(s, pat, i);
      }
      if exists i :: OccursAt(s, pat, i) {
        var i :| OccursAt(s, pat, i);
        assert i != 0;
        OccursShift(s, pat, i - 1);
      }
    }
  }

  /** A string cannot contain a pattern if one of the pattern's characters
      never occurs in it. */
  lemma MissingCharNotContained(s: string, pat: string, c: char)
    requires c in pat && c !in s
    ensures !Contains(s, pat)
  {
    ContainsIff(s, pat);
  }

  /** An occurrence at a known index is found. */
  lemma OccursContains(s: string, pat: string, i: int)
    requires OccursAt(s, pat, i)
    ensures Contains(s, pat)
  {
    ContainsIff(s, pat);
  }
}
