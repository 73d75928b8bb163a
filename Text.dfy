/** Case folding and substring containment on strings, as the retriever uses them:
    `s.lower()` restricted to ASCII letters, and Python's `sub in s` on strings. */
module Text {

  datatype Option<+T> = None | Some(value: T)

  predicate IsUpper(c: char) {
    'A' <= c <= 'Z'
  }

  /** One character of `str.lower()`: ASCII upper-case letters map to lower case,
      everything else is left as it is. */
  function LowerChar(c: char): (r: char)
    ensures IsUpper(c) ==> r as int == c as int + 32
    ensures !IsUpper(c) ==> r == c
    ensures !IsUpper(r)
  {
    if IsUpper(c) then (c as int + 32) as char else c
  }

  /** `s.lower()`, character by character. */
  function Lower(s: string): (r: string)
    ensures |r| == |s|
    ensures forall i :: 0 <= i < |s| ==> r[i] == LowerChar(s[i])
  {
    seq(|s|, i requires 0 <= i < |s| => LowerChar(s[i]))
  }

  /** Two characters that are equal, or are the capital and the small form of
      the same ASCII letter, in either order. */
  predicate SameLetterUpToCase(x: char, y: char) {
    || x == y
    || ('A' <= x <= 'Z' && y as int == x as int + 32)
    || ('A' <= y <= 'Z' && x as int == y as int + 32)
  }

  /** Two strings that differ at most in the case of ASCII letters, position
      by position. */
  predicate SameUpToCase(a: string, b: string) {
    |a| == |b| && forall i :: 0 <= i < |a| ==> SameLetterUpToCase(a[i], b[i])
  }

  /** Lower-casing identifies exactly the strings that differ only in case. */
  lemma SameUpToCaseLower(a: string, b: string)
    ensures SameUpToCase(a, b) <==> Lower(a) == Lower(b)
  {
    if SameUpToCase(a, b) {
      forall i | 0 <= i < |a|
        ensures Lower(a)[i] == Lower(b)[i]
      {
      }
    }
    if Lower(a) == Lower(b) {
      forall i | 0 <= i < |a|
        ensures SameLetterUpToCase(a[i], b[i])
      {
        assert Lower(a)[i] == Lower(b)[i];
      }
    }
  }

  /** Lower-casing an already lower-cased string changes nothing. */
  lemma LowerIdempotent(s: string)
    ensures Lower(Lower(s)) == Lower(s)
  {
  }

  /** `sub` occurs in `s` starting at position `i`. */
  predicate OccursAt(sub: string, s: string, i: int) {
    0 <= i && i + |sub| <= |s| && s[i..i + |sub|] == sub
  }

  /** Python's `sub in s` for strings: `sub` is a (contiguous) substring of
      `s`. The empty string is always contained, and a contained string is
      no longer than `s`. */
  predicate Contains(sub: string, s: string): (r: bool)
    ensures |sub| == 0 ==> r
    ensures r ==> |sub| <= |s|
  {
    assert |sub| == 0 ==> OccursAt(sub, s, 0);
    exists i | 0 <= i <= |s| - |sub| :: OccursAt(sub, s, i)
  }

  lemma ContainsSelf(s: string)
    ensures Contains(s, s)
  {
    assert OccursAt(s, s, 0);
  }

  lemma OccursBetween(a: string, sub: string, b: string)
    ensures OccursAt(sub, a + sub + b, |a|)
  {
  }

  /** A character of `sub` that `s` lacks rules out every occurrence. */
  lemma MissingCharNotContained(sub: string, s: string, k: nat)
    requires k < |sub|
    requires sub[k] !in s
    ensures !Contains(sub, s)
  {
  }

  /** A character is absent from `Lower(s)` when neither it nor its upper-case
      form occurs in `s`. */
  lemma LowerKeepsAbsent(c: char, s: string)
    requires c !in s
    requires 'a' <= c <= 'z' ==> (c as int - 32) as char !in s
    ensures c !in Lower(s)
  {
  }

  /** `s` has no line break in it. */
  predicate NoLineBreak(s: string) {
    forall i | 0 <= i < |s| :: s[i] != '\n'
  }

  lemma LineBreakFreeConcat(a: string, b: string)
    requires NoLineBreak(a) && NoLineBreak(b)
    ensures NoLineBreak(a + b)
  {
  }

  /** The first position at or after `from` where `pat` occurs in `s`. */
  function FindFrom(pat: string, s: string, from: nat): (r: Option<nat>)
    requires from <= |s|
    ensures r.Some? ==> from <= r.value && OccursAt(pat, s, r.value)
    ensures r.Some? ==> forall j :: from <= j < r.value ==> !OccursAt(pat, s, j)
    ensures r.None? ==> forall j :: from <= j ==> !OccursAt(pat, s, j)
    decreases |s| - from
  {
    if from + |pat| > |s| then None
    else if s[from..from + |pat|] == pat then Some(from)
    else FindFrom(pat, s, from + 1)
  }

  /** The first position where `pat` occurs in `s`, if any. */
  function Find(pat: string, s: string): (r: Option<nat>)
    ensures r.Some? <==> Contains(pat, s)
    ensures r.Some? ==> OccursAt(pat, s, r.value) && forall j :: 0 <= j < r.value ==> !OccursAt(pat, s, j)
  {
    FindFrom(pat, s, 0)
  }
}
