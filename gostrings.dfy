/** The part of Go's `strings` package the core relies on. Strings are
    sequences of characters; the identifiers handled here are ASCII, so a
    character index is the byte index Go works with. */
module GoStrings {

  /** `sub` occurs in `s` starting at index `i`. */
  predicate OccursAt(s: string, sub: string, i: int)
  {
    0 <= i && i + |sub| <= |s| && s[i..i + |sub|] == sub
  }

  /** `p` is the start of the last occurrence of `sub` in `s`. */
  ghost predicate IsLastOccurrence(s: string, sub: string, p: int)
  {
    OccursAt(s, sub, p) && forall j :: p < j ==> !OccursAt(s, sub, j)
  }

  /** Go's `strings.LastIndex(s, sub)`: the index of the last occurrence of
      `sub` in `s`, or -1 when `sub` does not occur. */
  function LastIndex(s: string, sub: string): (r: int)
    ensures -1 <= r
    ensures r >= 0 ==> IsLastOccurrence(s, sub, r)
    ensures r == -1 ==> forall j :: !OccursAt(s, sub, j)
  {
    if |sub| > |s| then -1 else LastIndexFrom(s, sub, |s| - |sub|)
  }

  /** The last occurrence of `sub` in `s` that starts at or before `i`. */
  function LastIndexFrom(s: string, sub: string, i: int): (r: int)
    requires |sub| <= |s| && -1 <= i <= |s| - |sub|
    ensures -1 <= r <= i
    ensures r >= 0 ==> OccursAt(s, sub, r)
    ensures forall j :: r < j <= i ==> !OccursAt(s, sub, j)
    decreases i + 1
  {
    if i < 0 then -1
    else if s[i..i + |sub|] == sub then i
    else LastIndexFrom(s, sub, i - 1)
  }

  /** The last occurrence is unique, so LastIndex is determined by it. */
  lemma LastIndexOfLastOccurrence(s: string, sub: string, p: int)
    requires IsLastOccurrence(s, sub, p)
    ensures LastIndex(s, sub) == p
  {
  }

  /** An occurrence inside the suffix `s[k..]` is an occurrence in `s`,
      shifted by `k`. */
  lemma OccursInSuffix(s: string, sub: string, k: nat, j: int)
    requires k <= |s| && 0 <= j
    ensures OccursAt(s[k..], sub, j) <==> OccursAt(s, sub, k + j)
  {
    if 0 <= j && j + |sub| <= |s| - k {
      assert s[k..][j..j + |sub|] == s[k + j..k + j + |sub|];
    }
  }

  /** A character that `s` does not contain rules out every occurrence of a
      string that does. */
  lemma AbsentCharacter(s: string, sub: string, c: char, j: int)
    requires c in sub && c !in s
    ensures !OccursAt(s, sub, j)
  {
  }
}
