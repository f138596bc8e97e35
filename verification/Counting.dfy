/** Distinct sequences of naturals and how many elements they have. */
module Counting {

  predicate Distinct(s: seq<nat>) {
    forall i, j :: 0 <= i < j < |s| ==> s[i] != s[j]
  }

  function Members(s: seq<nat>): set<nat> { set x | x in s }

  lemma {:induction false} DistinctSize(s: seq<nat>)
    requires Distinct(s)
    ensures |Members(s)| == |s|
  {
    if |s| > 0 {
      var n := |s| - 1;
      DistinctSize(s[..n]);
      assert Members(s) == Members(s[..n]) + {s[n]};
    }
  }

  lemma {:induction false} RangeSize(r: set<nat>, n: nat)
    requires forall i: nat :: i < n <==> i in r
    ensures |r| == n
  {
    if n == 0 {
      assert r == {};
    } else {
      RangeSize(r - {n - 1}, n - 1);
    }
  }

  function Range(n: nat): (r: set<nat>)
    ensures forall i: nat :: i < n <==> i in r
  {
    if n == 0 then {} else Range(n - 1) + {n - 1}
  }

  /** Distinct numbers below n that miss one of them are fewer than n. */
  lemma {:induction false} FewerThan(s: seq<nat>, n: nat, x: nat)
    requires Distinct(s) && x < n && x !in s && forall y :: y in s ==> y < n
    ensures |s| < n
  {
    DistinctSize(s);
    RangeSize(Range(n), n);
    SubsetSize(Members(s) + {x}, Range(n));
  }

  lemma {:induction false} SubsetSize(a: set<nat>, b: set<nat>)
    requires a <= b
    ensures |a| <= |b|
    decreases a
  {
    if a != {} {
      var x: nat :| x in a;
      SubsetSize(a - {x}, b - {x});
    }
  }
}
