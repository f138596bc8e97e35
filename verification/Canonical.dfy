/**
 Canonical Huffman codes as section 3.2.2 of RFC 1951 defines them from a list of code lengths,
 and what it means for a code to be a prefix of a bit stream.
 Nothing here mentions decoding tables.
 */
module Canonical {
  import opened Bits

  const MAX_BITS: nat := 15

  /** Code lengths per symbol; length 0 means that the symbol has no code. */
  type Lengths = ls: seq<nat> | forall i :: 0 <= i < |ls| ==> ls[i] <= 15

  /** Number of symbols with code length l. */
  function Count(ls: seq<nat>, l: nat): (c: nat)
    ensures c <= |ls|
  {
    if |ls| == 0 then 0
    else Count(ls[..|ls| - 1], l) + (if ls[|ls| - 1] == l then 1 else 0)
  }

  /** The numerically smallest code of length l. */
  function FirstCode(ls: seq<nat>, l: nat): nat
    requires l >= 1
  {
    if l == 1 then 0 else 2 * (FirstCode(ls, l - 1) + Count(ls, l - 1))
  }

  /** The code of a symbol: codes of one length are consecutive, in symbol order. */
  function Code(ls: seq<nat>, sym: nat): nat
    requires sym < |ls| && ls[sym] >= 1
  {
    FirstCode(ls, ls[sym]) + Count(ls[..sym], ls[sym])
  }

  /** The code of sym is a prefix of the bits that start at position p. */
  predicate Matches(ls: Lengths, bits: seq<bit>, p: nat, sym: nat)
  {
    && sym < |ls|
    && ls[sym] >= 1
    && p + ls[sym] <= |bits|
    && CodeBits(bits, p, ls[sym]) == Code(ls, sym)
  }

  /** Sum over all codes of 2^(15 - length): at most 2^15 for any prefix code (Kraft). */
  function KraftSum(ls: Lengths): nat
  {
    if |ls| == 0 then 0
    else KraftSum(ls[..|ls| - 1]) +
         (if ls[|ls| - 1] == 0 then 0 else Pow2(MAX_BITS - ls[|ls| - 1]))
  }

  predicate HasCodes(ls: Lengths) {
    exists i :: 0 <= i < |ls| && ls[i] != 0
  }

  predicate Oversubscribed(ls: Lengths) {
    KraftSum(ls) > 0x8000
  }

  /** Lengths for which puff_construct returns 0. */
  predicate CompleteOrEmpty(ls: Lengths) {
    KraftSum(ls) == 0x8000 || !HasCodes(ls)
  }

  predicate Incomplete(ls: Lengths) {
    HasCodes(ls) && KraftSum(ls) < 0x8000
  }

  // ----- counting -----

  lemma {:induction false} CountNext(ls: seq<nat>, k: nat, l: nat)
    requires k < |ls|
    ensures Count(ls[..k + 1], l) == Count(ls[..k], l) + if ls[k] == l then 1 else 0
  {
    assert ls[..k + 1][..k] == ls[..k];
  }

  lemma {:induction false} CountMono(ls: seq<nat>, k: nat, l: nat)
    requires k <= |ls|
    ensures Count(ls[..k], l) <= Count(ls, l)
    ensures k < |ls| && ls[k] == l ==> Count(ls[..k], l) < Count(ls, l)
  {
    if k == |ls| {
      assert ls[..k] == ls;
    } else {
      var rest := ls[..|ls| - 1];
      if k < |rest| {
        CountMono(rest, k, l);
        assert rest[..k] == ls[..k];
      } else {
        assert rest == ls[..k];
      }
    }
  }

  /** The k-th symbol of length l. */
  lemma {:induction false} NthSymbol(ls: seq<nat>, l: nat, k: nat) returns (sym: nat)
    requires k < Count(ls, l)
    ensures sym < |ls| && ls[sym] == l && Count(ls[..sym], l) == k
  {
    var n := |ls| - 1;
    if k < Count(ls[..n], l) {
      sym := NthSymbol(ls[..n], l, k);
      assert ls[..n][..sym] == ls[..sym];
    } else {
      sym := n;
    }
  }

  // ----- Kraft sum and first codes -----

  /** What is left of the code space after all codes of length at most l. */
  function Left(ls: seq<nat>, l: nat): int
  {
    if l == 0 then 1 else 2 * Left(ls, l - 1) - Count(ls, l)
  }

  lemma {:induction false} LeftIsSpaceAboveCodes(ls: seq<nat>, l: nat)
    requires l >= 1
    ensures Left(ls, l) == Pow2(l) - FirstCode(ls, l) - Count(ls, l)
  {
    if l > 1 {
      LeftIsSpaceAboveCodes(ls, l - 1);
    } else {
      assert Left(ls, 0) == 1 && Pow2(1) == 2 && FirstCode(ls, 1) == 0;
    }
  }

  /** Adding one code of length l takes 2^(m - l) from the space left at any later length m. */
  lemma {:induction false} LeftExtend(ls: seq<nat>, x: nat, m: nat)
    ensures Left(ls + [x], m) == Left(ls, m) - (if 1 <= x <= m then Pow2(m - x) else 0)
  {
    assert (ls + [x])[..|ls|] == ls;
    if m > 0 {
      LeftExtend(ls, x, m - 1);
      assert Count(ls + [x], m) == Count(ls, m) + (if x == m then 1 else 0);
    }
  }

  lemma {:induction false} LeftIsKraft(ls: Lengths)
    ensures Left(ls, MAX_BITS) == 0x8000 - KraftSum(ls)
  {
    if |ls| == 0 {
      assert Pow2(MAX_BITS) == 0x8000;
      LeftOfNothing(ls, MAX_BITS);
    } else {
      var n := |ls| - 1;
      LeftIsKraft(ls[..n]);
      LeftExtend(ls[..n], ls[n], MAX_BITS);
      assert ls == ls[..n] + [ls[n]];
    }
  }

  lemma {:induction false} LeftOfNothing(ls: seq<nat>, m: nat)
    requires |ls| == 0
    ensures Left(ls, m) == Pow2(m)
  {
    if m > 0 { LeftOfNothing(ls, m - 1); }
  }

  /** Once the space is over-subscribed, longer codes cannot bring it back. */
  lemma {:induction false} NegativeStays(ls: seq<nat>, l: nat, m: nat)
    requires l <= m && Left(ls, l) < 0
    ensures Left(ls, m) < 0
  {
    if l < m { NegativeStays(ls, l, m - 1); }
  }

  lemma {:induction false} NoCodesNoKraft(ls: Lengths)
    requires !HasCodes(ls)
    ensures KraftSum(ls) == 0
  {
    if |ls| > 0 {
      assert ls[|ls| - 1] == 0;
      NoCodesNoKraft(ls[..|ls| - 1]);
    }
  }

  // ----- the code is prefix-free -----

  /** Codes of a longer length start above every extension of the shorter codes. */
  lemma {:induction false} FirstCodeAbove(ls: seq<nat>, l: nat, m: nat)
    requires 1 <= l < m
    ensures FirstCode(ls, m) >= Shl(FirstCode(ls, l) + Count(ls, l), m - l)
  {
    if m > l + 1 {
      FirstCodeAbove(ls, l, m - 1);
    } else {
      assert Shl(FirstCode(ls, l) + Count(ls, l), 1) == FirstCode(ls, m);
    }
  }

  lemma {:induction false} CodeBitsPrefix(bits: seq<bit>, p: nat, l: nat, m: nat)
    requires l <= m && p + m <= |bits|
    ensures CodeBits(bits, p, m) + 1 <= Shl(CodeBits(bits, p, l) + 1, m - l)
    decreases m
  {
    if l < m { CodeBitsPrefix(bits, p, l, m - 1); }
  }

  lemma {:induction false} NoLongerMatch(ls: Lengths, bits: seq<bit>, p: nat, s: nat, t: nat)
    requires Matches(ls, bits, p, s)
    requires t < |ls| && ls[s] < ls[t]
    ensures !Matches(ls, bits, p, t)
  {
    var l, m := ls[s], ls[t];
    if p + m <= |bits| {
      FirstCodeAbove(ls, l, m);
      CountMono(ls, s, l);
      CodeBitsPrefix(bits, p, l, m);
      ShlMono(CodeBits(bits, p, l) + 1, FirstCode(ls, l) + Count(ls, l), m - l);
    }
  }

  lemma {:induction false} SameRank(ls: seq<nat>, s: nat, t: nat)
    requires s < t < |ls| && ls[s] == ls[t]
    ensures Count(ls[..s], ls[s]) < Count(ls[..t], ls[s])
  {
    CountMono(ls[..t], s, ls[s]);
    assert ls[..t][..s] == ls[..s];
  }

  /** At most one code is a prefix of any bit stream, for every vector of lengths. */
  lemma {:induction false} MatchUnique(ls: Lengths, bits: seq<bit>, p: nat, s: nat, t: nat)
    requires Matches(ls, bits, p, s) && Matches(ls, bits, p, t)
    ensures s == t
  {
    if ls[s] < ls[t] {
      NoLongerMatch(ls, bits, p, s, t);
    } else if ls[t] < ls[s] {
      NoLongerMatch(ls, bits, p, t, s);
    } else if s < t {
      SameRank(ls, s, t);
    } else if t < s {
      SameRank(ls, t, s);
    }
  }

  /** With a complete code every 15 bits begin with some code. */
  lemma {:induction false} CompleteResolves(ls: Lengths, bits: seq<bit>, p: nat) returns (sym: nat)
    requires KraftSum(ls) == 0x8000
    requires p + MAX_BITS <= |bits|
    ensures Matches(ls, bits, p, sym)
  {
    LeftIsKraft(ls);
    LeftIsSpaceAboveCodes(ls, MAX_BITS);
    assert Pow2(MAX_BITS) == 0x8000;
    CodeBound(bits, p, MAX_BITS);
    sym := FindMatch(ls, bits, p, MAX_BITS);
  }

  /** If l bits stay below the end of the codes of length l, a code of length at most l matches. */
  lemma {:induction false} FindMatch(ls: Lengths, bits: seq<bit>, p: nat, l: nat) returns (sym: nat)
    requires 1 <= l <= MAX_BITS && p + l <= |bits|
    requires CodeBits(bits, p, l) < FirstCode(ls, l) + Count(ls, l)
    ensures Matches(ls, bits, p, sym) && ls[sym] <= l
  {
    var c := CodeBits(bits, p, l);
    if FirstCode(ls, l) <= c {
      sym := NthSymbol(ls, l, c - FirstCode(ls, l));
    } else {
      sym := FindMatch(ls, bits, p, l - 1);
    }
  }
}
