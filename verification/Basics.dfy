/** What several parts of the model share. */
module Basics {

  datatype Option<+T> = None | Some(value: T)

  /**
   A fact written `forall u {:trigger Open(u)} :: Open(u) ==> F` stays folded in proofs that carry it
   along; `assert Open(true)` opens it where its contents are needed.
   */
  ghost predicate Open(u: bool) { u || !u }

  // ----- division -----

  lemma {:induction false} QuotientIs(v: nat, d: nat, q: nat, m: nat)
    requires d > 0 && v == q * d + m && m < d
    ensures q == v / d
  {
    var k := q - v / d;
    assert k * d == v % d - m by {
      assert k * d == q * d - v / d * d;
    }
    NoMultiple(k, d);
  }

  lemma {:induction false} NoMultiple(k: int, d: nat)
    requires 0 < k * d + d < 2 * d
    ensures k == 0
  {
    if k >= 1 { MultipleGrows(k, d); }
    if k <= -1 { MultipleGrows(-k, d); }
  }

  lemma {:induction false} MultipleGrows(k: int, d: nat)
    requires k >= 1
    ensures k * d >= d
  {
    assert k * d == d + (k - 1) * d;
    assert (k - 1) * d >= 0;
  }
}
