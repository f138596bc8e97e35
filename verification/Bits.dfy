/** Shifts and "or" on naturals, and the bit-stream view of a byte string. */
module Bits {
  type byte = x: int | 0 <= x < 256

  function Pow2(n: nat): (p: nat)
    ensures p > 0
  {
    if n == 0 then 1 else 2 * Pow2(n - 1)
  }

  /** C's `|`, `<<`, `>>` and `& ((1 << k) - 1)` on unsigned operands wide enough to keep every bit. */
  function BitOr(a: nat, b: nat): nat
    decreases a + b
  {
    if a == 0 then b
    else if b == 0 then a
    else (if a % 2 == 1 || b % 2 == 1 then 1 else 0) + 2 * BitOr(a / 2, b / 2)
  }

  function Shl(x: nat, k: nat): nat {
    if k == 0 then x else 2 * Shl(x, k - 1)
  }

  function Shr(x: nat, k: nat): nat {
    if k == 0 then x else Shr(x / 2, k - 1)
  }

  function Low(x: nat, k: nat): nat {
    if k == 0 then 0 else x % 2 + 2 * Low(x / 2, k - 1)
  }

  lemma {:induction false} OrStep(bit: nat, a: nat, b: nat)
    requires bit < 2
    ensures BitOr(bit + 2 * a, 2 * b) == bit + 2 * BitOr(a, b)
    ensures BitOr(2 * b, bit + 2 * a) == bit + 2 * BitOr(b, a)
  {
    var x := bit + 2 * a;
    assert x / 2 == a && x % 2 == bit;
    assert BitOr(a, 0) == a && BitOr(0, a) == a && BitOr(0, b) == b && BitOr(b, 0) == b;
  }

  /** Or-ing fields that occupy different bits is addition. */
  lemma {:induction false} OrShl(lo: nat, hi: nat, k: nat)
    requires lo < Pow2(k)
    ensures BitOr(lo, Shl(hi, k)) == lo + Shl(hi, k)
  {
    if k > 0 {
      OrShl(lo / 2, hi, k - 1);
      OrStep(lo % 2, lo / 2, Shl(hi, k - 1));
    }
  }

  lemma {:induction false} ShrNext(x: nat, k: nat)
    ensures Shr(x, k + 1) == Shr(x, k) / 2
  {
    if k > 0 { ShrNext(x / 2, k - 1); }
  }

  lemma {:induction false} ShrAll(x: nat, k: nat)
    requires x < Pow2(k)
    ensures Shr(x, k) == 0
  {
    if k > 0 { ShrAll(x / 2, k - 1); }
  }

  lemma {:induction false} ShlTwice(x: nat, k: nat)
    ensures Shl(x, k + 2) == 4 * Shl(x, k)
  {
    assert Shl(x, k + 2) == 2 * Shl(x, k + 1);
  }

  lemma {:induction false} ShlMono(x: nat, y: nat, k: nat)
    requires x <= y
    ensures Shl(x, k) <= Shl(y, k)
  {
    if k > 0 { ShlMono(x, y, k - 1); }
  }

  lemma {:induction false} MulAtLeast(d: int, k: int)
    requires d > 0 && k >= 1
    ensures d * k >= d
  {
  }

  lemma {:induction false} DivModUnique(v: nat, q: nat, r: nat, d: nat)
    requires d > 0 && r < d && v == r + d * q
    ensures v / d == q && v % d == r
  {
    var q', r' := v / d, v % d;
    var x, y := d * q, d * q';
    assert x - y == r' - r;
    assert d * (q - q') == x - y && d * (q' - q) == y - x;
    if q > q' {
      MulAtLeast(d, q - q');
    } else if q < q' {
      MulAtLeast(d, q' - q);
    }
  }

  // ----- a byte string read as bits, least significant bit of each byte first -----

  type bit = x: int | 0 <= x < 2

  function ToBits(input: seq<byte>): (bits: seq<bit>)
    ensures |bits| == 8 * |input|
  {
    seq(8 * |input|, p requires 0 <= p < 8 * |input| => Shr(input[p / 8], p % 8) % 2)
  }

  /** n bits from position p as a number, first bit least significant. */
  function BitsAt(bits: seq<bit>, p: nat, n: nat): nat
    requires p + n <= |bits|
    decreases n, bits
  {
    if n == 0 then 0 else bits[p] + 2 * BitsAt(bits, p + 1, n - 1)
  }

  /** n bits from position p as a number, first bit most significant (Huffman code order). */
  function CodeBits(bits: seq<bit>, p: nat, n: nat): nat
    requires p + n <= |bits|
    decreases n, bits
  {
    if n == 0 then 0 else 2 * CodeBits(bits, p, n - 1) + bits[p + n - 1]
  }

  lemma {:induction false} BitsBound(bits: seq<bit>, p: nat, n: nat)
    requires p + n <= |bits|
    ensures BitsAt(bits, p, n) < Pow2(n)
    decreases n
  {
    if n > 0 { BitsBound(bits, p + 1, n - 1); }
  }

  lemma {:induction false} CodeBound(bits: seq<bit>, p: nat, n: nat)
    requires p + n <= |bits|
    ensures CodeBits(bits, p, n) < Pow2(n)
  {
    if n > 0 { CodeBound(bits, p, n - 1); }
  }

  /** Or-ing later bits above earlier ones gives the longer stretch of bits. */
  lemma {:induction false} BitsJoin(bits: seq<bit>, p: nat, a: nat, b: nat)
    requires p + a + b <= |bits|
    ensures BitOr(BitsAt(bits, p, a), Shl(BitsAt(bits, p + a, b), a)) == BitsAt(bits, p, a + b)
    decreases a
  {
    if a > 0 {
      BitsJoin(bits, p + 1, a - 1, b);
      OrStep(bits[p], BitsAt(bits, p + 1, a - 1), Shl(BitsAt(bits, p + a, b), a - 1));
    }
  }

  /** Shifting out the first a of n bits leaves the later bits; masking keeps exactly the first a. */
  lemma {:induction false} BitsShift(bits: seq<bit>, p: nat, a: nat, n: nat)
    requires a <= n && p + n <= |bits|
    ensures Shr(BitsAt(bits, p, n), a) == BitsAt(bits, p + a, n - a)
    ensures Low(BitsAt(bits, p, n), a) == BitsAt(bits, p, a)
    decreases a
  {
    if a > 0 {
      BitsShift(bits, p + 1, a - 1, n - 1);
      var tail := BitsAt(bits, p + 1, n - 1);
      assert (bits[p] + 2 * tail) / 2 == tail;
    }
  }

  lemma {:induction false} ByteTail(input: seq<byte>, i: nat, k: nat, p: nat)
    requires i < |input| && k <= 8 && p == 8 * i + k
    ensures BitsAt(ToBits(input), p, 8 - k) == Shr(input[i], k)
    decreases 8 - k
  {
    if k == 8 {
      assert Pow2(8) == 256;
      ShrAll(input[i], 8);
    } else {
      ByteTail(input, i, k + 1, p + 1);
      assert p / 8 == i && p % 8 == k;
      ShrNext(input[i], k);
    }
  }

  lemma {:induction false} ByteBits(input: seq<byte>, i: nat, p: nat)
    requires i < |input| && p == 8 * i
    ensures BitsAt(ToBits(input), p, 8) == input[i]
  {
    ByteTail(input, i, 0, p);
  }

  // ----- single bits -----

  predicate Bit(m: nat, i: nat) {
    if i == 0 then m % 2 == 1 else Bit(m / 2, i - 1)
  }

  /** m & ~(1 << i) or m | (1 << i) */
  function WithBit(m: nat, i: nat, b: bool): nat {
    if i == 0 then m / 2 * 2 + (if b then 1 else 0) else m % 2 + 2 * WithBit(m / 2, i - 1, b)
  }

  lemma {:induction false} WithBitIs(m: nat, i: nat, b: bool, j: nat)
    ensures Bit(WithBit(m, i, b), j) <==> if i == j then b else Bit(m, j)
  {
    var w := WithBit(m, i, b);
    if i == 0 {
      assert w / 2 == m / 2;
    } else {
      assert w / 2 == WithBit(m / 2, i - 1, b) && w % 2 == m % 2;
      if j > 0 { WithBitIs(m / 2, i - 1, b, j - 1); }
    }
  }

  lemma {:induction false} ZeroHasNoBits(i: nat)
    ensures !Bit(0, i)
  {
    if i > 0 { ZeroHasNoBits(i - 1); }
  }
}
