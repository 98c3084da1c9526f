/** Character-level helpers for the case-insensitive comparisons and the
    substring search (`String.prototype.toLowerCase` and
    `String.prototype.includes`) that the roster filter and the position
    scan rely on. */
module Text {

  predicate IsUpper(c: char) {
    'A' <= c <= 'Z'
  }

  /** Lower-cases one ASCII letter; every other character is kept. */
  function LowerChar(c: char): (r: char)
    ensures !IsUpper(r)
    ensures IsUpper(c) ==> r as int - c as int == 'a' as int - 'A' as int
    ensures !IsUpper(c) ==> r == c
  {
    if IsUpper(c) then (c as int - 'A' as int + 'a' as int) as char else c
  }

  /** JavaScript's `toLowerCase()`, restricted to the ASCII letters. */
  function Lower(s: string): (r: string)
    ensures |r| == |s|
    ensures forall i :: 0 <= i < |s| ==> r[i] == LowerChar(s[i])
    ensures forall i :: 0 <= i < |r| ==> !IsUpper(r[i])
  {
    seq(|s|, i requires 0 <= i < |s| => LowerChar(s[i]))
  }

  /** Lower-casing twice is lower-casing once. */
  lemma LowerIdempotent(s: string)
    ensures Lower(Lower(s)) == Lower(s)
  {
  }

  /** `q` occurs in `s` starting at index `k`. */
  ghost predicate OccursAt(s: string, q: string, k: int) {
    0 <= k && k + |q| <= |s| && s[k..k + |q|] == q
  }

  /** `q` is a substring of `s` (the meaning of `s.includes(q)`). */
  ghost predicate IsSubstring(q: string, s: string) {
    exists k :: OccursAt(s, q, k)
  }

  /** `s.includes(q)`: tries every start position from the left. */
  function Contains(s: string, q: string): bool
    decreases |s|
  {
    if |q| > |s| then false
    else if q <= s then true
    else Contains(s[1..], q)
  }

  lemma OccursAtShift(s: string, q: string, k: int)
    requires |s| > 0 && k >= 0
    ensures OccursAt(s[1..], q, k) <==> OccursAt(s, q, k + 1)
  {
    if 0 <= k && k + |q| <= |s| - 1 {
      assert s[1..][k..k + |q|] == s[k + 1..k + 1 + |q|];
    }
  }

  /** The search finds `q` exactly when `q` is a substring of `s`. */
  lemma {:induction false} ContainsIffSubstring(s: string, q: string)
    ensures Contains(s, q) <==> IsSubstring(q, s)
    decreases |s|
  {
    if |q| > |s| {
      assert forall k :: !OccursAt(s, q, k);
    } else if q <= s {
      assert s[0..|q|] == q;
      assert OccursAt(s, q, 0);
    } else {
      ContainsIffSubstring(s[1..], q);
      assert !OccursAt(s, q, 0);
      if Contains(s[1..], q) {
        var k :| OccursAt(s[1..], q, k);
        OccursAtShift(s, q, k);
      }
      if IsSubstring(q, s) {
        var k :| OccursAt(s, q, k);
        assert k >= 1;
        OccursAtShift(s, q, k - 1);
      }
    }
  }

  /** Every string includes the empty string. */
  lemma ContainsEmpty(s: string)
    ensures Contains(s, "")
  {
  }
}
