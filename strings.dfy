/** The two java.lang.String queries the search filters use. Strings are
    sequences of characters; matching is exact and case-sensitive. */
module Strings {

  /** `s.startsWith(prefix)`: the first |prefix| characters of s are prefix.
      Every string starts with the empty string. */
  predicate StartsWith(s: string, prefix: string)
    ensures StartsWith(s, prefix) <==> OccursAt(s, prefix, 0)
    ensures prefix == [] ==> StartsWith(s, prefix)
  {
    |prefix| <= |s| && s[..|prefix|] == prefix
  }

  /** `sub` occurs in `s` beginning at index i. */
  predicate OccursAt(s: string, sub: string, i: int) {
    0 <= i && i + |sub| <= |s| && s[i..i + |sub|] == sub
  }

  /** `s.contains(sub)`: scans s left to right for a position where sub starts,
      as `indexOf(sub) >= 0` does. */
  function Contains(s: string, sub: string): (b: bool)
    ensures b <==> exists i :: OccursAt(s, sub, i)
    decreases |s|
  {
    if StartsWith(s, sub) then
      assert OccursAt(s, sub, 0);
      true
    else if |s| == 0 then
      false
    else
      OccursAfterFirst(s, sub);
      Contains(s[1..], sub)
  }

  /** When s does not start with sub, the occurrences of sub in s are exactly
      those in s[1..], shifted by one. */
  lemma OccursAfterFirst(s: string, sub: string)
    requires |s| > 0 && !StartsWith(s, sub)
    ensures (exists i :: OccursAt(s, sub, i)) <==> (exists j :: OccursAt(s[1..], sub, j))
  {
    assert !OccursAt(s, sub, 0) by {
      if |sub| <= |s| {
        assert s[..|sub|] == s[0..|sub|];
      }
    }
    forall i | OccursAt(s, sub, i) ensures OccursAt(s[1..], sub, i - 1) {
      TailSlice(s, i, i + |sub|);
    }
    forall j | OccursAt(s[1..], sub, j) ensures OccursAt(s, sub, j + 1) {
      TailSlice(s, j + 1, j + 1 + |sub|);
    }
  }

  lemma TailSlice(s: string, lo: int, hi: int)
    requires 1 <= lo <= hi <= |s|
    ensures s[1..][lo - 1..hi - 1] == s[lo..hi]
  {
  }

  /** A string in which the first character of a non-empty `sub` never appears
      does not contain `sub`. */
  lemma AbsentFirstCharacter(s: string, sub: string)
    requires |sub| > 0 && sub[0] !in s
    ensures !Contains(s, sub)
  {
  }
}
