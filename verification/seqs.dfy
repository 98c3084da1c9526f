/** Sequence helpers shared by the pages: `Array.prototype.filter`,
    `Array.prototype.reduce` over a numeric field, and the reference
    notions (subsequence, sum) their contracts are stated in. */
module Seqs {

  /** `s.filter(p)`: the elements satisfying `p`, in their original order. */
  function Filter<T>(s: seq<T>, p: T -> bool): (r: seq<T>)
    ensures |r| <= |s|
    ensures forall i :: 0 <= i < |r| ==> p(r[i])
  {
    if |s| == 0 then []
    else (if p(s[0]) then [s[0]] else []) + Filter(s[1..], p)
  }

  /** The filtered elements come from the input, and every passing element
      of the input is among them. */
  lemma {:induction false} FilterMembers<T>(s: seq<T>, p: T -> bool)
    ensures forall i :: 0 <= i < |Filter(s, p)| ==> Filter(s, p)[i] in s
    ensures forall i :: 0 <= i < |s| && p(s[i]) ==> s[i] in Filter(s, p)
    decreases |s|
  {
    if |s| > 0 {
      FilterMembers(s[1..], p);
      var r, rest := Filter(s, p), Filter(s[1..], p);
      assert r == (if p(s[0]) then [s[0]] else []) + rest;
      forall i | 0 <= i < |r|
        ensures r[i] in s
      {
        if p(s[0]) && i == 0 {
          assert r[i] == s[0];
        } else {
          var j := if p(s[0]) then i - 1 else i;
          assert r[i] == rest[j];
          assert rest[j] in s[1..];
        }
      }
      forall i | 0 <= i < |s| && p(s[i])
        ensures s[i] in r
      {
        if i == 0 {
          assert r[0] == s[0];
        } else {
          assert s[i] == s[1..][i - 1];
          assert s[i] in rest;
        }
      }
    }
  }

  /** `a` is obtained from `b` by deleting elements, keeping the order. */
  ghost predicate IsSubsequence<T>(a: seq<T>, b: seq<T>)
    decreases |b|
  {
    if |a| == 0 then true
    else if |b| == 0 then false
    else (a[0] == b[0] && IsSubsequence(a[1..], b[1..])) || IsSubsequence(a, b[1..])
  }

  /** Filtering only deletes elements: order and values are kept. */
  lemma {:induction false} FilterIsSubsequence<T>(s: seq<T>, p: T -> bool)
    ensures IsSubsequence(Filter(s, p), s)
    decreases |s|
  {
    if |s| > 0 {
      FilterIsSubsequence(s[1..], p);
      var r := Filter(s, p);
      if p(s[0]) {
        assert r[0] == s[0];
        assert r[1..] == Filter(s[1..], p);
      } else {
        assert r == Filter(s[1..], p);
      }
    }
  }

  /** When every element passes, filtering returns the input itself. */
  lemma {:induction false} FilterKeepsAll<T>(s: seq<T>, p: T -> bool)
    requires forall i :: 0 <= i < |s| ==> p(s[i])
    ensures Filter(s, p) == s
    decreases |s|
  {
    if |s| > 0 {
      FilterKeepsAll(s[1..], p);
      assert [s[0]] + s[1..] == s;
    }
  }

  /** Filtering twice with the same predicate is filtering once. */
  lemma FilterIdempotent<T>(s: seq<T>, p: T -> bool)
    ensures Filter(Filter(s, p), p) == Filter(s, p)
  {
    FilterKeepsAll(Filter(s, p), p);
  }

  /** The complement of a predicate. */
  function Negate<T>(p: T -> bool): T -> bool {
    x => !p(x)
  }

  /** The elements passing `p` and those failing it make up the input:
      together they hold every element exactly as often as the input. */
  lemma {:induction false} FilterPartition<T>(s: seq<T>, p: T -> bool)
    ensures multiset(Filter(s, p)) + multiset(Filter(s, Negate(p))) == multiset(s)
    decreases |s|
  {
    if |s| > 0 {
      var x, tail := s[0], s[1..];
      FilterPartition(tail, p);
      FilterCons(s, p);
      FilterCons(s, Negate(p));
      assert Negate(p)(x) == !p(x);
      PartitionStep(x, tail, s, Filter(tail, p), Filter(tail, Negate(p)),
                    Filter(s, p), Filter(s, Negate(p)), p(x));
    }
  }

  /** One step of `Filter`: the head is kept exactly when it passes. */
  lemma FilterCons<T>(s: seq<T>, p: T -> bool)
    requires |s| > 0
    ensures Filter(s, p) == (if p(s[0]) then [s[0]] else []) + Filter(s[1..], p)
    ensures s == [s[0]] + s[1..]
  {
  }

  /** Putting `x` in front of one half of a partition of `tail` partitions
      `[x] + tail`. */
  lemma PartitionStep<T>(x: T, tail: seq<T>, s: seq<T>, yes: seq<T>, no: seq<T>,
                         a: seq<T>, b: seq<T>, keep: bool)
    requires s == [x] + tail
    requires multiset(yes) + multiset(no) == multiset(tail)
    requires a == (if keep then [x] else []) + yes
    requires b == (if !keep then [x] else []) + no
    ensures multiset(a) + multiset(b) == multiset(s)
  {
    assert multiset(s) == multiset([x]) + multiset(tail);
    if keep {
      assert b == no;
      assert multiset(a) == multiset([x]) + multiset(yes);
    } else {
      assert a == yes;
      assert multiset(b) == multiset([x]) + multiset(no);
    }
  }

  /** The two halves of the partition have the input's length between them. */
  lemma FilterPartitionLength<T>(s: seq<T>, p: T -> bool)
    ensures |Filter(s, p)| + |Filter(s, Negate(p))| == |s|
  {
    FilterPartition(s, p);
    assert |multiset(Filter(s, p)) + multiset(Filter(s, Negate(p)))| == |multiset(s)|;
  }

  /** Filtering keeps each passing value exactly as often as the input holds
      it, and drops every failing value. */
  lemma FilterMultiplicity<T>(s: seq<T>, p: T -> bool)
    ensures forall y :: multiset(Filter(s, p))[y] == if p(y) then multiset(s)[y] else 0
  {
    FilterPartition(s, p);
    var yes, no := Filter(s, p), Filter(s, Negate(p));
    forall y
      ensures multiset(yes)[y] == if p(y) then multiset(s)[y] else 0
    {
      assert multiset(yes)[y] + multiset(no)[y] == multiset(s)[y];
      assert Negate(p)(y) == !p(y);
    }
  }

  /** The sum of `f` over `s`, the reference for `reduce`. */
  function Sum<T>(s: seq<T>, f: T -> real): real {
    if |s| == 0 then 0.0 else f(s[0]) + Sum(s[1..], f)
  }

  /** `s.reduce((acc, x) => acc + f(x), acc)`: a left fold. */
  function FoldLeft<T>(s: seq<T>, acc: real, f: T -> real): real {
    if |s| == 0 then acc else FoldLeft(s[1..], acc + f(s[0]), f)
  }

  /** The left fold adds the sum of the elements to its seed. */
  lemma {:induction false} FoldLeftIsSum<T>(s: seq<T>, acc: real, f: T -> real)
    ensures FoldLeft(s, acc, f) == acc + Sum(s, f)
    decreases |s|
  {
    if |s| > 0 {
      FoldLeftIsSum(s[1..], acc + f(s[0]), f);
    }
  }

  /** Bounds on every element bound the sum. */
  lemma {:induction false} SumBounds<T>(s: seq<T>, f: T -> real, lo: real, hi: real)
    requires forall i :: 0 <= i < |s| ==> lo <= f(s[i]) <= hi
    ensures |s| as real * lo <= Sum(s, f) <= |s| as real * hi
    decreases |s|
  {
    if |s| > 0 {
      SumBounds(s[1..], f, lo, hi);
      var n := |s[1..]| as real;
      assert |s| as real * lo == n * lo + lo;
      assert |s| as real * hi == n * hi + hi;
    }
  }

  /** A sum of non-negative terms is non-negative. */
  lemma {:induction false} SumNonNegative<T>(s: seq<T>, f: T -> real)
    requires forall i :: 0 <= i < |s| ==> f(s[i]) >= 0.0
    ensures Sum(s, f) >= 0.0
    decreases |s|
  {
    if |s| > 0 {
      SumNonNegative(s[1..], f);
    }
  }
}
