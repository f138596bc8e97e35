/**
 Internet checksums: csum_inet_init, csum_inet_update and csum_inet_digest of executor/common.h on a
 little-endian machine, the chunks that prog/checksum.go composes, and the sum of RFC 1071.
 */
module Checksum {
  import opened Bits

  const WRAP: nat := 0x1_0000_0000
  const MAX_UPDATE: nat := 131072

  /** The 16-bit words of the data, a last odd byte standing for itself, added up without bound. */
  function Sum(data: seq<byte>): nat {
    if |data| == 0 then 0
    else if |data| == 1 then (data[0] as int)
    else Sum(data[2..]) + (data[0] as int) + 256 * (data[1] as int)
  }

  /** The representative of x modulo 65535 that folding leaves: 0 only for 0. */
  function Norm(x: nat): nat { if x == 0 then 0 else (x - 1) % 65535 + 1 }

  lemma {:induction false} NormIs(x: nat, k: nat, r: nat)
    requires x == 65535 * k + r && 0 < r <= 65535
    ensures Norm(x) == r
  {
    assert x - 1 == 65535 * k + (r - 1);
  }

  lemma {:induction false} NormParts(x: nat)
    ensures x == 65535 * ((if x == 0 then 0 else (x - 1) / 65535)) + Norm(x)
    ensures x > 0 ==> Norm(x) > 0
    ensures Norm(x) <= 65535
  {
  }

  lemma {:induction false} NormAdd(x: nat, y: nat)
    ensures Norm(Norm(x) + y) == Norm(x + y)
  {
    if x > 0 {
      var k := (x - 1) / 65535;
      var s := Norm(x) + y;
      var j := (s - 1) / 65535;
      NormParts(x);
      NormParts(s);
      NormIs(x + y, k + j, Norm(s));
    }
  }

  // ----- the reference -----

  /** Ones' complement addition of 16-bit words (section 1 of RFC 1071). */
  function OnesAdd(a: nat, b: nat): nat { if a + b > 0xffff then a + b - 0xffff else a + b }

  function OnesSum(acc: nat, data: seq<byte>): nat
    decreases |data|
  {
    if |data| == 0 then acc
    else if |data| == 1 then OnesAdd(acc, data[0] as int)
    else OnesSum(OnesAdd(acc, (data[0] as int) + 256 * (data[1] as int)), data[2..])
  }

  /** Folding late is ones' complement addition of every word. */
  lemma {:induction false} FoldLate(acc: nat, data: seq<byte>)
    requires acc <= 0xffff
    ensures OnesSum(acc, data) == Norm(acc + Sum(data))
    decreases |data|
  {
    if |data| == 1 {
      OnesNorm(acc, data[0] as int);
    } else if |data| > 1 {
      var w := (data[0] as int) + 256 * (data[1] as int);
      OnesNorm(acc, w);
      FoldLate(OnesAdd(acc, w), data[2..]);
      NormAdd(acc + w, Sum(data[2..]));
    } else {
      NormSmall(acc);
    }
  }

  lemma {:induction false} NormSmall(x: nat)
    requires x <= 0xffff
    ensures Norm(x) == x
  {
  }

  lemma {:induction false} OnesNorm(a: nat, b: nat)
    requires a <= 0xffff && b <= 0xffff
    ensures OnesAdd(a, b) == Norm(a + b) <= 0xffff
  {
    if a + b > 0xffff { NormIs(a + b, 1, a + b - 0xffff); } else { NormSmall(a + b); }
  }

  // ----- the code -----

  function Word(data: seq<byte>, i: nat): nat
    requires i + 2 <= |data|
  {
    (data[i] as int) + 256 * (data[i + 1] as int)
  }

  /** What is still to be added to r gives the whole sum, modulo the width of the accumulator. */
  predicate Partial(acc: nat, data: seq<byte>, i: nat, r: nat)
    requires i <= |data|
  {
    r < WRAP && (r + Sum(data[i..])) % WRAP == (acc + Sum(data)) % WRAP
  }

  lemma {:induction false} PartialNext(acc: nat, data: seq<byte>, i: nat, r: nat)
    requires i + 2 <= |data| && Partial(acc, data, i, r)
    ensures Partial(acc, data, i + 2, (r + Word(data, i)) % WRAP)
  {
    assert data[i..][2..] == data[i + 2..];
    WrapAdd(r, Word(data, i), Sum(data[i + 2..]));
  }

  lemma {:induction false} PartialOdd(acc: nat, data: seq<byte>, i: nat, r: nat)
    requires i + 1 == |data| && Partial(acc, data, i, r)
    ensures (r + (data[i] as int)) % WRAP == (acc + Sum(data)) % WRAP
  {
    assert data[i..] == [data[i]];
  }

  /** The loop over pairs of bytes. */
  method AddWords(acc: nat, data: seq<byte>) returns (r: nat, i: nat)
    requires acc <= 0xffff && |data| > 0
    ensures i == |data| - |data| % 2 && Partial(acc, data, i, r)
  {
    r, i := acc, 0;
    assert data[0..] == data;
    while i < |data| - 1
      invariant 0 <= i <= |data| && i % 2 == 0 && Partial(acc, data, i, r)
    {
      PartialNext(acc, data, i, r);
      r := (r + Word(data, i)) % WRAP;
      i := i + 2;
    }
  }

  /** csum_inet_update, with the 32-bit accumulator that wraps */
  method Update(acc: nat, data: seq<byte>) returns (r: nat)
    requires acc <= 0xffff
    ensures r == Norm((acc + Sum(data)) % WRAP) <= 0xffff
  {
    if |data| == 0 {
      NormSmall(acc);
      return acc;
    }
    var i;
    r, i := AddWords(acc, data);
    if |data| % 2 == 1 {
      PartialOdd(acc, data, i, r);
      r := (r + (data[|data| - 1] as int)) % WRAP;
    } else {
      PartialEven(acc, data, r);
    }
    NormParts(r);
    r := Fold(r);
  }

  lemma {:induction false} PartialEven(acc: nat, data: seq<byte>, r: nat)
    requires Partial(acc, data, |data|, r)
    ensures r == (acc + Sum(data)) % WRAP
  {
    assert data[|data|..] == [];
    Small(r, WRAP);
  }

  lemma {:induction false} WrapAdd(r: nat, w: nat, rest: nat)
    ensures ((r + w) % WRAP + rest) % WRAP == (r + (w + rest)) % WRAP
  {
    var q := (r + w) / WRAP;
    assert r + w == WRAP * q + (r + w) % WRAP;
    WrapOff((r + w) % WRAP + rest, q);
  }

  lemma {:induction false} WrapOff(x: nat, q: nat)
    ensures (WRAP * q + x) % WRAP == x % WRAP
  {
  }

  /** while (acc > 0xffff) acc = (acc & 0xffff) + (acc >> 16) */
  method Fold(acc: nat) returns (r: nat)
    ensures r == Norm(acc)
  {
    r := acc;
    while r > 0xffff
      invariant Norm(r) == Norm(acc)
    {
      FoldStep(r);
      r := r % 0x1_0000 + r / 0x1_0000;
    }
    NormSmall(r);
  }

  lemma {:induction false} FoldStep(x: nat)
    requires x > 0xffff
    ensures Norm(x % 0x1_0000 + x / 0x1_0000) == Norm(x)
  {
    var q := x / 0x1_0000;
    var y := x % 0x1_0000 + q;
    NormParts(y);
    assert x == y + 65535 * q;
    NormIs(x, (y - 1) / 65535 + q, Norm(y));
  }

  // ----- the bound on one update -----

  lemma {:induction false} SumBound(data: seq<byte>)
    ensures Sum(data) <= (|data| + 1) / 2 * 65535
  {
    if |data| > 1 { SumBound(data[2..]); }
  }

  /** Up to 131072 bytes, the accumulator cannot wrap: the update is ones' complement addition. */
  lemma {:induction false} NoWrap(acc: nat, data: seq<byte>)
    requires acc <= 0xffff && |data| <= MAX_UPDATE
    ensures acc + Sum(data) < WRAP
    ensures Norm((acc + Sum(data)) % WRAP) == OnesSum(acc, data)
  {
    SumBound(data);
    FoldLate(acc, data);
    Small(acc + Sum(data), WRAP);
  }

  function Ones(n: nat): (r: seq<byte>)
    ensures |r| == n
  {
    seq(n, _ => 255)
  }

  lemma {:induction false} SumOfOnes(n: nat)
    ensures Sum(Ones(n)) == n / 2 * 65535 + n % 2 * 255
  {
    if n > 1 {
      assert Ones(n)[2..] == Ones(n - 2);
      SumOfOnes(n - 2);
    }
  }

  /** One byte more can wrap, and then the sum is wrong. */
  lemma {:induction false} BoundIsExact()
    ensures var data := Ones(MAX_UPDATE + 1);
            0xffff + Sum(data) >= WRAP && Norm((0xffff + Sum(data)) % WRAP) != OnesSum(0xffff, data)
  {
    SumOfOnes(MAX_UPDATE + 1);
    FoldLate(0xffff, Ones(MAX_UPDATE + 1));
  }

  function Zeros(n: nat): (r: seq<byte>)
    ensures |r| == n
  {
    seq(n, _ => 0)
  }

  lemma {:induction false} SumOfZeros(n: nat)
    ensures Sum(Zeros(n)) == 0
  {
    if n > 1 {
      assert Zeros(n)[2..] == Zeros(n - 2);
      SumOfZeros(n - 2);
    }
  }

  lemma {:induction false} SumPad(a: seq<byte>, n: nat)
    ensures Sum(a + Zeros(n)) == Sum(a)
  {
    var all := a + Zeros(n);
    if |a| > 1 {
      assert all[2..] == a[2..] + Zeros(n);
      SumPad(a[2..], n);
    } else if |a| == 1 && n > 0 {
      assert all[2..] == Zeros(n - 1);
      SumOfZeros(n - 1);
    } else if |a| == 0 {
      assert all == Zeros(n);
      SumOfZeros(n);
    } else {
      assert all == a;
    }
  }

  /** What an update leaves is the ones' complement sum. */
  predicate Right(acc: nat, data: seq<byte>) { Norm((acc + Sum(data)) % WRAP) == OnesSum(acc, data) }

  /** An update over n bytes is right for all data and accumulators exactly if n is at most 131072. */
  lemma {:induction false} RightIff(n: nat)
    ensures (forall acc: nat, data: seq<byte> {:trigger Right(acc, data)} ::
               acc <= 0xffff && |data| == n ==> Right(acc, data)) <==>
            n <= MAX_UPDATE
  {
    if n <= MAX_UPDATE {
      forall acc: nat, data: seq<byte> {:trigger Right(acc, data)} | acc <= 0xffff && |data| == n
          ensures Right(acc, data) {
        NoWrap(acc, data);
      }
    } else {
      PadIsWrong(n - (MAX_UPDATE + 1));
      assert |Ones(MAX_UPDATE + 1) + Zeros(n - (MAX_UPDATE + 1))| == n;
    }
  }

  lemma {:induction false} PadIsWrong(k: nat)
    ensures !Right(0xffff, Ones(MAX_UPDATE + 1) + Zeros(k))
  {
    var a := Ones(MAX_UPDATE + 1);
    BoundIsExact();
    SumPad(a, k);
    FoldLate(0xffff, a);
    FoldLate(0xffff, a + Zeros(k));
  }

  // ----- pieces -----

  lemma {:induction false} SumConcat(a: seq<byte>, b: seq<byte>)
    requires |a| % 2 == 0
    ensures Sum(a + b) == Sum(a) + Sum(b)
  {
    if |a| == 0 {
      assert a + b == b;
    } else {
      assert (a + b)[2..] == a[2..] + b;
      SumConcat(a[2..], b);
    }
  }

  /** Updating over even-length pieces is updating over their concatenation. */
  lemma {:induction false} Pieces(acc: nat, a: seq<byte>, b: seq<byte>)
    requires acc <= 0xffff && |a| % 2 == 0
    ensures OnesSum(OnesSum(acc, a), b) == OnesSum(acc, a + b)
  {
    FoldLate(acc, a);
    FoldLate(acc, a + b);
    NormParts(acc + Sum(a));
    FoldLate(OnesSum(acc, a), b);
    SumConcat(a, b);
    NormAdd(acc + Sum(a), Sum(b));
  }

  /** The concatenation of chunks. */
  function Flat(chunks: seq<seq<byte>>): seq<byte> {
    if |chunks| == 0 then [] else Flat(chunks[..|chunks| - 1]) + chunks[|chunks| - 1]
  }

  /** All chunks but the last have even length. */
  predicate Even(chunks: seq<seq<byte>>) {
    forall i :: 0 <= i < |chunks| - 1 ==> |chunks[i]| % 2 == 0
  }

  lemma {:induction false} FlatEven(chunks: seq<seq<byte>>)
    requires forall i :: 0 <= i < |chunks| ==> |chunks[i]| % 2 == 0
    ensures |Flat(chunks)| % 2 == 0
  {
    if |chunks| > 0 { FlatEven(chunks[..|chunks| - 1]); }
  }

  /** The accumulator after the given chunks, wrap-around included. */
  function Acc(chunks: seq<seq<byte>>): nat {
    if |chunks| == 0 then 0 else Updated(Acc(chunks[..|chunks| - 1]), Sum(chunks[|chunks| - 1]))
  }

  /** What an update by words of the given sum leaves. */
  function Updated(acc: nat, sum: nat): nat { Norm((acc + sum) % WRAP) }

  /** The accumulator is the sum over the concatenation. */
  predicate Agrees(chunks: seq<seq<byte>>) { Acc(chunks) == OnesSum(0, Flat(chunks)) }

  predicate Short(chunks: seq<seq<byte>>) { forall i :: 0 <= i < |chunks| ==> |chunks[i]| <= MAX_UPDATE }

  /** No chunk starts in the middle of a word. */
  predicate Aligned(chunks: seq<seq<byte>>) {
    forall i :: 0 <= i < |chunks| && |chunks[i]| > 0 ==> |Flat(chunks[..i])| % 2 == 0
  }

  lemma {:induction false} NextChunk(acc: nat, a: seq<byte>, b: seq<byte>)
    requires |a| % 2 == 0 && acc == OnesSum(0, a) <= 0xffff && |b| <= MAX_UPDATE
    ensures Norm((acc + Sum(b)) % WRAP) == OnesSum(0, a + b) <= 0xffff
  {
    Pieces(0, a, b);
    NoWrap(acc, b);
    NormParts((acc + Sum(b)) % WRAP);
  }

  lemma {:induction false} SmallAcc(acc: nat, x: nat)
    requires acc + x <= 0xffff
    ensures Updated(acc, x) == acc + x
  {
    NormSmall(acc + x);
  }

  lemma {:induction false} FlatNext(chunks: seq<seq<byte>>, k: nat)
    requires k < |chunks|
    ensures Flat(chunks[..k + 1]) == Flat(chunks[..k]) + chunks[k]
  {
    assert chunks[..k + 1][..k] == chunks[..k];
  }

  lemma {:induction false} AccNext(chunks: seq<seq<byte>>, k: nat)
    requires k < |chunks|
    ensures Acc(chunks[..k + 1]) == Updated(Acc(chunks[..k]), Sum(chunks[k]))
  {
    assert chunks[..k + 1][..k] == chunks[..k];
  }

  lemma {:induction false} OneMore(acc: nat, a: seq<byte>, b: seq<byte>, c: seq<byte>)
    requires acc == OnesSum(0, a) <= 0xffff && |b| <= MAX_UPDATE && (|b| > 0 ==> |a| % 2 == 0) && c == a + b
    ensures Updated(acc, Sum(b)) == OnesSum(0, c) <= 0xffff
  {
    if |b| == 0 {
      assert c == a;
      SmallAcc(acc, 0);
    } else {
      NextChunk(acc, a, b);
    }
  }

  lemma {:induction false} AlignedUpTo(chunks: seq<seq<byte>>, k: nat)
    requires Short(chunks) && Aligned(chunks) && k <= |chunks|
    ensures Acc(chunks[..k]) == OnesSum(0, Flat(chunks[..k])) <= 0xffff
  {
    if k > 0 {
      AlignedUpTo(chunks, k - 1);
      AccNext(chunks, k - 1);
      FlatNext(chunks, k - 1);
      OneMore(Acc(chunks[..k - 1]), Flat(chunks[..k - 1]), chunks[k - 1], Flat(chunks[..k]));
    }
  }

  lemma {:induction false} AlignedAgrees(chunks: seq<seq<byte>>)
    requires Short(chunks) && Aligned(chunks)
    ensures Agrees(chunks) && Acc(chunks) <= 0xffff
  {
    AlignedUpTo(chunks, |chunks|);
    assert chunks[..|chunks|] == chunks;
  }

  lemma {:induction false} EvenAligned(chunks: seq<seq<byte>>)
    requires Even(chunks)
    ensures Aligned(chunks)
  {
    forall i | 0 <= i < |chunks| ensures |Flat(chunks[..i])| % 2 == 0 { FlatEven(chunks[..i]); }
  }

  /** Every chunk filled up to whole words. */
  function Filled(chunks: seq<seq<byte>>): (r: seq<seq<byte>>)
    ensures |r| == |chunks| && forall i :: 0 <= i < |r| ==> r[i] == chunks[i] + Zeros(|chunks[i]| % 2)
  {
    if |chunks| == 0 then []
    else Filled(chunks[..|chunks| - 1]) + [chunks[|chunks| - 1] + Zeros(|chunks[|chunks| - 1]| % 2)]
  }

  lemma {:induction false} FilledAcc(chunks: seq<seq<byte>>)
    ensures Acc(Filled(chunks)) == Acc(chunks)
  {
    if |chunks| > 0 {
      var n := |chunks| - 1;
      FilledAcc(chunks[..n]);
      assert Filled(chunks)[..n] == Filled(chunks[..n]);
      SumPad(chunks[n], |chunks[n]| % 2);
    }
  }

  lemma {:induction false} FilledEven(chunks: seq<seq<byte>>)
    requires Short(chunks)
    ensures Even(Filled(chunks)) && Short(Filled(chunks))
  {
    forall i | 0 <= i < |chunks| ensures |Filled(chunks)[i]| % 2 == 0 && |Filled(chunks)[i]| <= MAX_UPDATE {
      WholeWords(|chunks[i]|);
    }
  }

  lemma {:induction false} WholeWords(n: nat)
    requires n <= MAX_UPDATE
    ensures (n + n % 2) % 2 == 0 && n + n % 2 <= MAX_UPDATE
  {
  }

  /** Chunks of any length up to the bound are summed as if each was filled up to whole words. */
  lemma {:induction false} FilledAgrees(chunks: seq<seq<byte>>)
    requires Short(chunks)
    ensures Acc(chunks) == OnesSum(0, Flat(Filled(chunks))) <= 0xffff
  {
    FilledAcc(chunks);
    FilledEven(chunks);
    EvenAligned(Filled(chunks));
    AlignedAgrees(Filled(chunks));
  }

  // ----- when chunks can be concatenated -----

  function Total(lens: seq<nat>): nat { if |lens| == 0 then 0 else Total(lens[..|lens| - 1]) + lens[|lens| - 1] }

  predicate Have(chunks: seq<seq<byte>>, lens: seq<nat>) {
    |chunks| == |lens| && forall i :: 0 <= i < |lens| ==> |chunks[i]| == lens[i]
  }

  lemma {:induction false} FlatTotal(chunks: seq<seq<byte>>, lens: seq<nat>)
    requires Have(chunks, lens)
    ensures |Flat(chunks)| == Total(lens)
  {
    if |lens| > 0 { FlatTotal(chunks[..|lens| - 1], lens[..|lens| - 1]); }
  }

  predicate WordStarts(lens: seq<nat>) {
    forall i :: 0 <= i < |lens| && lens[i] > 0 ==> Total(lens[..i]) % 2 == 0
  }

  /** Zero bytes, except for a one at the start of chunk j. */
  function Spike(lens: seq<nat>, j: nat): (r: seq<seq<byte>>)
    requires j < |lens| && lens[j] > 0
    ensures Have(r, lens)
  {
    seq(|lens|, i requires 0 <= i < |lens| => SpikeChunk(lens[i], i == j))
  }

  function SpikeChunk(n: nat, here: bool): (r: seq<byte>)
    ensures |r| == n
  {
    if here && n > 0 then [1] + Zeros(n - 1) else Zeros(n)
  }

  lemma {:induction false} SpikeSum(lens: seq<nat>, j: nat, i: nat)
    requires j < |lens| && lens[j] > 0 && i < |lens|
    ensures Sum(Spike(lens, j)[i]) == if i == j then 1 else 0
  {
    SpikeAt(lens, j, i);
    SumOfZeros(lens[i]);
    SumPad([1], lens[j] - 1);
  }

  lemma {:induction false} SpikeAcc(lens: seq<nat>, j: nat, k: nat)
    requires j < |lens| && lens[j] > 0 && k <= |lens|
    ensures Acc(Spike(lens, j)[..k]) == if k <= j then 0 else 1
  {
    if k > 0 {
      SpikeAcc(lens, j, k - 1);
      AccNext(Spike(lens, j), k - 1);
      SpikeSum(lens, j, k - 1);
      SmallAcc(Acc(Spike(lens, j)[..k - 1]), Sum(Spike(lens, j)[k - 1]));
    }
  }

  function Dot(p: nat, q: nat): seq<byte> { Zeros(p) + [1] + Zeros(q) }

  lemma {:induction false} MoreZeros(p: nat, q: nat)
    ensures Zeros(p) + Zeros(q) == Zeros(p + q)
  {
  }

  lemma {:induction false} FirstDot(p: nat, q: nat)
    ensures Zeros(p) + ([1] + Zeros(q)) == Dot(p, q)
  {
  }

  lemma {:induction false} MoreDot(p: nat, q: nat, r: nat)
    ensures Dot(p, q) + Zeros(r) == Dot(p, q + r)
  {
    MoreZeros(q, r);
    assert Zeros(p) + [1] + Zeros(q) + Zeros(r) == Zeros(p) + [1] + (Zeros(q) + Zeros(r));
  }

  lemma {:induction false} TotalNext(lens: seq<nat>, k: nat)
    requires k < |lens|
    ensures Total(lens[..k + 1]) == Total(lens[..k]) + lens[k]
  {
    assert lens[..k + 1][..k] == lens[..k];
  }

  lemma {:induction false} SpikeAt(lens: seq<nat>, j: nat, i: nat)
    requires j < |lens| && lens[j] > 0 && i < |lens|
    ensures Spike(lens, j)[i] == if i == j then [1] + Zeros(lens[j] - 1) else Zeros(lens[i])
  {
  }

  lemma {:induction false} ZerosBefore(lens: seq<nat>, j: nat, k: nat)
    requires j < |lens| && lens[j] > 0 && k <= j
    ensures Flat(Spike(lens, j)[..k]) == Zeros(Total(lens[..k]))
  {
    if k > 0 {
      ZerosBefore(lens, j, k - 1);
      FlatNext(Spike(lens, j), k - 1);
      SpikeAt(lens, j, k - 1);
      TotalNext(lens, k - 1);
      MoreZeros(Total(lens[..k - 1]), lens[k - 1]);
    }
  }

  lemma {:induction false} SpikeFlat(lens: seq<nat>, j: nat, k: nat) returns (q: nat)
    requires j < k <= |lens| && lens[j] > 0
    ensures Flat(Spike(lens, j)[..k]) == Dot(Total(lens[..j]), q)
  {
    FlatNext(Spike(lens, j), k - 1);
    SpikeAt(lens, j, k - 1);
    if k - 1 == j {
      ZerosBefore(lens, j, j);
      FirstDot(Total(lens[..j]), lens[j] - 1);
      q := lens[j] - 1;
    } else {
      var p := SpikeFlat(lens, j, k - 1);
      MoreDot(Total(lens[..j]), p, lens[k - 1]);
      q := p + lens[k - 1];
    }
  }

  lemma {:induction false} SumOfDot(p: nat, q: nat)
    requires p % 2 == 1
    ensures Sum(Dot(p, q)) == 256
  {
    var a: seq<byte>, b: seq<byte> := Zeros(p - 1), [0, 1];
    assert Dot(p, q) == a + (b + Zeros(q));
    SumConcat(a, b + Zeros(q));
    SumOfZeros(p - 1);
    SumPad(b, q);
    assert b[2..] == [];
  }

  /** Chunks of the given lengths can all be concatenated exactly if every chunk with bytes starts at a word. */
  lemma {:induction false} ConcatenateIff(lens: seq<nat>)
    requires forall i :: 0 <= i < |lens| ==> lens[i] <= MAX_UPDATE
    ensures (forall chunks: seq<seq<byte>> {:trigger Agrees(chunks)} :: Have(chunks, lens) ==> Agrees(chunks)) <==>
            WordStarts(lens)
  {
    if WordStarts(lens) {
      forall chunks: seq<seq<byte>> {:trigger Agrees(chunks)} | Have(chunks, lens) ensures Agrees(chunks) {
        forall i | 0 <= i < |chunks| && |chunks[i]| > 0 ensures |Flat(chunks[..i])| % 2 == 0 {
          FlatTotal(chunks[..i], lens[..i]);
        }
        AlignedAgrees(chunks);
      }
    } else {
      var j: nat :| j < |lens| && lens[j] > 0 && Total(lens[..j]) % 2 != 0;
      SpikeDiffers(lens, j);
    }
  }

  lemma {:induction false} SpikeDiffers(lens: seq<nat>, j: nat)
    requires j < |lens| && lens[j] > 0 && Total(lens[..j]) % 2 == 1
    ensures !Agrees(Spike(lens, j))
  {
    var s, n := Spike(lens, j), |lens|;
    assert s[..n] == s;
    SpikeAcc(lens, j, n);
    var q := SpikeFlat(lens, j, n);
    SumOfDot(Total(lens[..j]), q);
    FoldLate(0, Flat(s));
    NormSmall(256);
  }

  /** The loop over the chunks of a checksum argument, and csum_inet_digest. */
  method Digest(chunks: seq<seq<byte>>) returns (d: nat)
    ensures d == 0xffff - Acc(chunks) && 0 <= d <= 0xffff
    ensures Short(chunks) ==> d == 0xffff - OnesSum(0, Flat(Filled(chunks)))
    ensures Short(chunks) && Aligned(chunks) ==> d == 0xffff - OnesSum(0, Flat(chunks))
  {
    var acc := 0;
    var k := 0;
    while k < |chunks|
      invariant 0 <= k <= |chunks| && acc == Acc(chunks[..k]) <= 0xffff
    {
      AccNext(chunks, k);
      acc := Update(acc, chunks[k]);
      k := k + 1;
    }
    assert chunks[..k] == chunks;
    if Short(chunks) {
      FilledAgrees(chunks);
      if Aligned(chunks) { AlignedAgrees(chunks); }
    }
    return 0xffff - acc;
  }

  // ----- storing the digest -----

  /** The two bytes at an even offset replaced by a little-endian word. */
  function Store(data: seq<byte>, at: nat, w: nat): seq<byte>
    requires at + 2 <= |data| && w <= 0xffff
  {
    data[at := (w % 256) as byte][at + 1 := (w / 256) as byte]
  }

  lemma {:induction false} SumStore(data: seq<byte>, at: nat, w: nat)
    requires at % 2 == 0 && at + 2 <= |data| && w <= 0xffff && data[at] == 0 && data[at + 1] == 0
    ensures Sum(Store(data, at, w)) == Sum(data) + w
  {
    var r := Store(data, at, w);
    if at == 0 {
      assert r[2..] == data[2..];
    } else {
      assert r[2..] == Store(data[2..], at - 2, w);
      SumStore(data[2..], at - 2, w);
    }
  }

  /** With the digest stored in a zero field at an even offset, the whole sums to 0xffff. */
  lemma {:induction false} DigestChecks(data: seq<byte>, at: nat)
    requires at % 2 == 0 && at + 2 <= |data| && data[at] == 0 && data[at + 1] == 0
    ensures 0xffff - OnesSum(0, data) >= 0
    ensures OnesSum(0, Store(data, at, 0xffff - OnesSum(0, data))) == 0xffff
  {
    FoldLate(0, data);
    NormParts(Sum(data));
    var d := 0xffff - OnesSum(0, data);
    SumStore(data, at, d);
    FoldLate(0, Store(data, at, d));
    var k := if Sum(data) == 0 then 0 else (Sum(data) - 1) / 65535;
    NormIs(Sum(data) + d, k, 65535);
  }

  // ----- pseudo headers -----

  /** The first n bytes of a little-endian word in memory. */
  function Memory(v: nat, n: nat): seq<byte> {
    if n == 0 then [] else [(v % 256) as byte] + Memory(v / 256, n - 1)
  }

  function Swap16(v: nat): nat
    requires v < 0x1_0000
  {
    v % 256 * 256 + v / 256
  }

  function Swap32(v: nat): nat
    requires v < WRAP
  {
    v % 256 * 0x100_0000 + v / 256 % 256 * 0x1_0000 + v / 0x1_0000 % 256 * 256 + v / 0x100_0000
  }

  /** A swapped word lies in memory in network byte order. */
  lemma {:induction false} SwapOrder16(v: nat)
    requires v < 0x1_0000
    ensures Memory(Swap16(v), 2) == [(v / 256) as byte, (v % 256) as byte]
  {
    var s := Swap16(v);
    assert s % 256 == v / 256 && s / 256 == v % 256;
    assert Memory(s / 256, 1) == [(v % 256) as byte] + Memory(s / 256 / 256, 0);
  }

  lemma {:induction false} SwapOrder32(v: nat)
    requires v < WRAP
    ensures Memory(Swap32(v), 4) ==
            [(v / 0x100_0000) as byte, (v / 0x1_0000 % 256) as byte, (v / 256 % 256) as byte, (v % 256) as byte]
  {
    var s := Swap32(v);
    var a, b, c, d := v / 0x100_0000, v / 0x1_0000 % 256, v / 256 % 256, v % 256;
    assert s == d * 0x100_0000 + c * 0x1_0000 + b * 256 + a;
    assert s % 256 == a && s / 256 == d * 0x1_0000 + c * 256 + b;
    assert s / 256 % 256 == b && s / 256 / 256 == d * 256 + c;
    assert s / 256 / 256 % 256 == c && s / 256 / 256 / 256 == d;
    assert Memory(d, 1) == [d as byte] + Memory(d / 256, 0);
    assert Memory(d * 256 + c, 2) == [c as byte] + Memory(d, 1);
    assert Memory(d * 0x1_0000 + c * 256 + b, 3) == [b as byte] + Memory(d * 256 + c, 2);
  }

  /** composePseudoCsumIPv4: the chunks as the executor finds them in memory */
  function Compose4(packet: seq<byte>, src: seq<byte>, dst: seq<byte>, protocol: byte): seq<seq<byte>> {
    [src, dst, Memory(Swap16(protocol as int), 2), Memory(Swap16(|packet| % 0x1_0000), 2), packet]
  }

  /** composePseudoCsumIPv6 */
  function Compose6(packet: seq<byte>, src: seq<byte>, dst: seq<byte>, protocol: byte): seq<seq<byte>> {
    [src, dst, Memory(Swap32(|packet| % WRAP), 4), Memory(Swap32(protocol as int), 4), packet]
  }

  /** Source, destination, zero, protocol, length (section 3.1 of RFC 9293). */
  function Header4(n: nat, src: seq<byte>, dst: seq<byte>, protocol: byte): seq<byte>
    requires n < 0x1_0000
  {
    src + dst + [0, protocol] + [(n / 256) as byte, (n % 256) as byte]
  }

  /** Source, destination, length, three zeros, next header (section 8.1 of RFC 8200). */
  function Header6(n: nat, src: seq<byte>, dst: seq<byte>, protocol: byte): seq<byte>
    requires n < WRAP
  {
    src + dst + [(n / 0x100_0000) as byte, (n / 0x1_0000 % 256) as byte, (n / 256 % 256) as byte, (n % 256) as byte] +
    [0, 0, 0, protocol]
  }

  lemma {:induction false} FlatFive(a: seq<byte>, b: seq<byte>, c: seq<byte>, d: seq<byte>, e: seq<byte>)
    ensures Flat([a, b, c, d, e]) == a + b + c + d + e
  {
    assert [a][..0] == [];
    assert Flat([a]) == [] + a == a;
    assert [a, b][..1] == [a];
    assert Flat([a, b]) == a + b;
    assert [a, b, c][..2] == [a, b];
    assert Flat([a, b, c]) == a + b + c;
    assert [a, b, c, d][..3] == [a, b, c];
    assert Flat([a, b, c, d]) == a + b + c + d;
    assert [a, b, c, d, e][..4] == [a, b, c, d];
  }

  lemma {:induction false} FiveChunks(chunks: seq<seq<byte>>, a: seq<byte>, b: seq<byte>, c: seq<byte>, d: seq<byte>,
                                      e: seq<byte>)
    requires chunks == [a, b, c, d, e] && |a| % 2 == |b| % 2 == |c| % 2 == |d| % 2 == 0
    ensures Even(chunks) && Flat(chunks) == a + b + c + d + e
  {
    FlatFive(a, b, c, d, e);
  }

  lemma {:induction false} Small(x: nat, m: nat)
    requires x < m
    ensures x % m == x
  {
  }

  lemma {:induction false} ProtocolOrder(p: byte)
    ensures Memory(Swap16(p as int), 2) == [0, p]
    ensures Memory(Swap32(p as int), 4) == [0, 0, 0, p]
  {
    SwapOrder16(p as int);
    SwapOrder32(p as int);
    SmallDigits(p as int);
  }

  lemma {:induction false} SmallDigits(v: nat)
    requires v < 256
    ensures v / 256 == v / 256 % 256 == v / 0x1_0000 % 256 == v / 0x100_0000 == 0 && v % 256 == v
  {
  }

  /**
   The composed chunks are the packet behind its pseudo header, and their lengths suit Digest; a
   packet too long for the length field has its length cut off to the field's width.
   */
  lemma {:induction false} PseudoHeader4(packet: seq<byte>, src: seq<byte>, dst: seq<byte>, protocol: byte)
    requires |src| == 4 && |dst| == 4
    ensures var chunks := Compose4(packet, src, dst, protocol);
            Aligned(chunks) && Flat(chunks) == Header4(|packet| % 0x1_0000, src, dst, protocol) + packet
  {
    var k := |packet| % 0x1_0000;
    ProtocolOrder(protocol);
    SwapOrder16(k);
    var n: seq<byte> := [(k / 256) as byte, (k % 256) as byte];
    FiveChunks(Compose4(packet, src, dst, protocol), src, dst, [0, protocol], n, packet);
    EvenAligned(Compose4(packet, src, dst, protocol));
  }

  lemma {:induction false} PseudoHeader6(packet: seq<byte>, src: seq<byte>, dst: seq<byte>, protocol: byte)
    requires |src| == 16 && |dst| == 16
    ensures var chunks := Compose6(packet, src, dst, protocol);
            Aligned(chunks) && Flat(chunks) == Header6(|packet| % WRAP, src, dst, protocol) + packet
  {
    var k := |packet| % WRAP;
    ProtocolOrder(protocol);
    SwapOrder32(k);
    var n := Memory(Swap32(k), 4);
    FiveChunks(Compose6(packet, src, dst, protocol), src, dst, n, [0, 0, 0, protocol], packet);
    EvenAligned(Compose6(packet, src, dst, protocol));
  }
}
