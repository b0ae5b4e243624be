/** Whitespace trimming, as performed on the username field before it is
    validated. */
module Text {

  /** The characters that the source language's `str.isspace` accepts:
      the C0 controls TAB through CR, the separators U+001C through U+001F,
      SPACE, NEL, NO-BREAK SPACE and the Unicode space separators. */
  predicate IsSpace(c: char) {
    || '\t' <= c <= '\r'
    || '\U{1C}' <= c <= ' '
    || c == '\U{85}'
    || c == '\U{A0}'
    || c == '\U{1680}'
    || '\U{2000}' <= c <= '\U{200A}'
    || c == '\U{2028}'
    || c == '\U{2029}'
    || c == '\U{202F}'
    || c == '\U{205F}'
    || c == '\U{3000}'
  }

  /** Every character of `s` is whitespace (vacuously so for the empty string). */
  predicate AllSpace(s: string) {
    forall i :: 0 <= i < |s| ==> IsSpace(s[i])
  }

  /** The first position at or after `i` that does not hold whitespace, or
      `|s|` when there is none. */
  function SkipSpace(s: string, i: nat): (k: nat)
    requires i <= |s|
    ensures i <= k <= |s|
    ensures forall j :: i <= j < k ==> IsSpace(s[j])
    ensures k == |s| || !IsSpace(s[k])
    decreases |s| - i
  {
    if i == |s| || !IsSpace(s[i]) then i else SkipSpace(s, i + 1)
  }

  /** Moving back from `j`, the first end position whose preceding character
      is not whitespace, stopping at `lo`. */
  function SkipSpaceBack(s: string, lo: nat, j: nat): (k: nat)
    requires lo <= j <= |s|
    ensures lo <= k <= j
    ensures forall i :: k <= i < j ==> IsSpace(s[i])
    ensures k == lo || !IsSpace(s[k - 1])
    decreases j
  {
    if j == lo || !IsSpace(s[j - 1]) then j else SkipSpaceBack(s, lo, j - 1)
  }

  /** `r` is the slice `s[lo..lo + |r|]`, everything outside that slice is
      whitespace, and `r` neither starts nor ends with whitespace. */
  predicate StripsTo(s: string, lo: int, r: string) {
    && 0 <= lo && lo + |r| <= |s|
    && r == s[lo..lo + |r|]
    && (forall i :: 0 <= i < lo ==> IsSpace(s[i]))
    && (forall i :: lo + |r| <= i < |s| ==> IsSpace(s[i]))
    && (r == [] || (!IsSpace(r[0]) && !IsSpace(r[|r| - 1])))
  }

  /** Whitespace stripped from both ends (the source's `str.strip()`). */
  function Strip(s: string): string {
    var lo := SkipSpace(s, 0);
    s[lo..SkipSpaceBack(s, lo, |s|)]
  }

  /** `Strip` removes exactly the leading and trailing whitespace: what it
      keeps is a slice of `s` that neither starts nor ends with whitespace,
      and everything it drops is whitespace. */
  lemma StripSlices(s: string)
    ensures StripsTo(s, SkipSpace(s, 0), Strip(s))
  {
    var lo := SkipSpace(s, 0);
    var hi := SkipSpaceBack(s, lo, |s|);
    var r := Strip(s);
    assert r == s[lo..hi];
    if r != [] {
      assert r[0] == s[lo] && r[|r| - 1] == s[hi - 1];
    }
  }

  /** At most one slice of `s` meets the stripping conditions, so `Strip` is
      the only reading of "trim both ends". */
  lemma StripUnique(s: string, lo1: int, r1: string, lo2: int, r2: string)
    requires StripsTo(s, lo1, r1) && StripsTo(s, lo2, r2)
    ensures r1 == r2
  {
  }

  /** Any slice meeting the stripping conditions is exactly `Strip(s)`. */
  lemma StripCharacterized(s: string, lo: int, r: string)
    requires StripsTo(s, lo, r)
    ensures Strip(s) == r
  {
    StripSlices(s);
    StripUnique(s, lo, r, SkipSpace(s, 0), Strip(s));
  }

  /** Stripping twice is the same as stripping once. */
  lemma StripIdempotent(s: string)
    ensures Strip(Strip(s)) == Strip(s)
  {
    var r := Strip(s);
    StripSlices(s);
    assert r[0..0 + |r|] == r;
    StripCharacterized(r, 0, r);
  }

  /** A field is blank after stripping exactly when it holds only whitespace. */
  lemma StripEmptyIff(s: string)
    ensures Strip(s) == [] <==> AllSpace(s)
  {
    var lo := SkipSpace(s, 0);
    var r := Strip(s);
    StripSlices(s);
    if r != [] {
      assert s[lo] == r[0];
    }
  }
}
