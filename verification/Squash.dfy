/**
 Squashing a pointee into an array of blobs and resources (prog/any.go), against the memory writes
 that the copyin instructions of an argument make (writeCopyin in prog/encodingexec.go, the traversal
 of prog/analysis.go and copyin in executor/executor.cc).
 */
module Squash {
  import opened Basics
  import opened Bits
  import opened Varint

  datatype Format = Native | BigEndian | StrDec | StrHex | StrOct

  /** In stands for both directions in which the kernel reads. */
  datatype Dir = In | Out

  datatype Arg =
    | Const(size: nat, val: uint64, format: Format, pad: bool)
    | Result(size: nat, format: Format, id: nat, dir: Dir)
    | Data(bytes: seq<byte>)
    | OutData(size: nat)
    | Group(size: nat, inner: seq<Arg>)
    | Union(size: nat, varlen: bool, option: Arg)

  function Size(a: Arg): nat
    decreases a
  {
    match a
    case Data(bytes) => |bytes|
    case Union(size, varlen, o) => if varlen then Size(o) else size
    case _ => a.size
  }

  function Sizes(fs: seq<Arg>): nat
    decreases fs
  {
    if |fs| == 0 then 0 else Size(fs[0]) + Sizes(fs[1..])
  }

  // ----- bytes of values -----

  /** The n low bytes, least significant first. */
  function Le(v: nat, n: nat): (r: seq<byte>)
    ensures |r| == n
  {
    if n == 0 then [] else [(v % 256) as byte] + Le(v / 256, n - 1)
  }

  function FromLe(bs: seq<byte>): nat {
    if |bs| == 0 then 0 else (bs[0] as int) + 256 * FromLe(bs[1..])
  }

  lemma {:induction false} LeInverse(bs: seq<byte>)
    ensures Le(FromLe(bs), |bs|) == bs
  {
    if |bs| > 0 {
      LeInverse(bs[1..]);
      var v := FromLe(bs);
      assert v % 256 == (bs[0] as int) && v / 256 == FromLe(bs[1..]);
      assert bs == [bs[0]] + bs[1..];
    }
  }

  /** The other way round, for values that fit. */
  lemma {:induction false} FromLeInverse(v: nat, n: nat)
    requires v < Pow2(8 * n)
    ensures FromLe(Le(v, n)) == v
  {
    if n > 0 {
      PowEight(n);
      FromLeInverse(v / 256, n - 1);
      assert Le(v, n)[1..] == Le(v / 256, n - 1);
    }
  }

  lemma {:induction false} PowEight(n: nat)
    requires n > 0
    ensures Pow2(8 * n) == 256 * Pow2(8 * (n - 1))
  {
    var k := 8 * (n - 1);
    assert Pow2(k + 2) == 4 * Pow2(k) && Pow2(k + 4) == 4 * Pow2(k + 2);
    assert Pow2(k + 6) == 4 * Pow2(k + 4) && Pow2(k + 8) == 4 * Pow2(k + 6);
  }

  function Reverse(bs: seq<byte>): (r: seq<byte>)
    ensures |r| == |bs|
  {
    if |bs| == 0 then [] else Reverse(bs[1..]) + [bs[0]]
  }

  /** swap16, swap32, swap64 */
  function Swap(v: nat, n: nat): nat { FromLe(Reverse(Le(v, n))) }

  /** n digits, most significant first, as printf pads them. */
  function Digits(v: nat, base: nat, n: nat): (r: seq<byte>)
    requires 2 <= base <= 16
    ensures |r| == n
  {
    if n == 0 then [] else Digits(v / base, base, n - 1) + [Digit(v % base)]
  }

  function Digit(d: nat): byte
    requires d < 16
  {
    if d < 10 then (48 + d) as byte else (87 + d) as byte
  }

  /** Sizes that copyin accepts for a format. */
  predicate Fits(format: Format, size: nat) {
    match format
    case Native => size == 1 || size == 2 || size == 4 || size == 8
    case BigEndian => size == 2 || size == 4 || size == 8
    case StrDec => size == 20
    case StrHex => size == 18
    case StrOct => size == 23
  }

  /** The bytes copyin stores for a value. */
  function Stored(v: nat, format: Format, size: nat): (r: seq<byte>)
    requires Fits(format, size)
    ensures |r| == size
  {
    match format
    case Native => Le(v, size)
    case BigEndian => Reverse(Le(v, size))
    case StrDec => Digits(v, 10, 20)
    case StrHex => [48, 120] + Digits(v, 16, 16)
    case StrOct => Digits(v, 8, 23)
  }

  // What is stored reads back as the value: most significant byte first, or digit by digit.

  function FromBe(bs: seq<byte>): nat {
    if |bs| == 0 then 0 else 256 * FromBe(bs[..|bs| - 1]) + (bs[|bs| - 1] as int)
  }

  lemma {:induction false} ReverseReads(bs: seq<byte>)
    ensures FromBe(Reverse(bs)) == FromLe(bs)
  {
    if |bs| > 0 {
      ReverseReads(bs[1..]);
      var r := Reverse(bs);
      assert r[..|r| - 1] == Reverse(bs[1..]) && r[|r| - 1] == bs[0];
    }
  }

  lemma {:induction false} BigEndianReads(v: nat, size: nat)
    requires Fits(BigEndian, size) && v < Pow2(8 * size)
    ensures FromBe(Stored(v, BigEndian, size)) == v
  {
    ReverseReads(Le(v, size));
    FromLeInverse(v, size);
  }

  function DigitValue(c: byte): int { if c < 58 then (c as int) - 48 else (c as int) - 87 }

  /** A number as printed in a base, most significant digit first. */
  function Number(bs: seq<byte>, base: nat): int {
    if |bs| == 0 then 0 else base * Number(bs[..|bs| - 1], base) + DigitValue(bs[|bs| - 1])
  }

  lemma {:induction false} DigitReads(d: nat)
    requires d < 16
    ensures DigitValue(Digit(d)) == d
  {
  }

  /** Printed in enough digits, a value reads back. */
  lemma {:induction false} DigitsRead(v: nat, base: nat, n: nat)
    requires 2 <= base <= 16 && v < Power(base, n)
    ensures Number(Digits(v, base, n), base) == v
  {
    if n > 0 {
      QuotientBelow(v, base, Power(base, n - 1));
      DigitsRead(v / base, base, n - 1);
      LastDigit(Digits(v / base, base, n - 1), base, v / base, v % base);
      Recombined(v, base);
    }
  }

  lemma {:induction false} LastDigit(ds: seq<byte>, base: nat, q: nat, r: nat)
    requires Number(ds, base) == q && r < 16
    ensures Number(ds + [Digit(r)], base) == base * q + r
  {
    var all := ds + [Digit(r)];
    assert all[..|all| - 1] == ds;
    DigitReads(r);
  }

  lemma {:induction false} Recombined(v: nat, base: nat)
    requires base > 0
    ensures base * (v / base) + v % base == v
  {
  }

  lemma {:induction false} QuotientBelow(v: nat, base: nat, p: nat)
    requires base > 0 && v < base * p
    ensures v / base < p
  {
    if v / base >= p { MulMono(base, p, v / base); }
  }

  // ----- memory -----

  /** A byte, or a byte that a result will fill in when the program runs. */
  datatype Cell = B(b: byte) | R(id: nat, format: Format, size: nat, k: nat)

  function Zeros(n: nat): (r: seq<Cell>)
    ensures |r| == n
  {
    seq(n, _ => B(0))
  }

  function Cells(bs: seq<byte>): (r: seq<Cell>)
    ensures |r| == |bs|
  {
    seq(|bs|, i requires 0 <= i < |bs| => B(bs[i]))
  }

  function ResultCells(id: nat, format: Format, size: nat): (r: seq<Cell>)
    ensures |r| == size
  {
    seq(size, k requires 0 <= k < size => R(id, format, size, k))
  }

  predicate Text(format: Format) { format == StrDec || format == StrHex || format == StrOct }

  /** One store; string formats also store a NUL behind, as sprintf does. */
  datatype Write = Write(off: nat, cells: seq<Cell>, nul: bool)

  function Apply(mem: seq<Cell>, w: Write): (r: seq<Cell>)
    requires w.off + |w.cells| <= |mem|
    ensures |r| == |mem|
  {
    var m := mem[..w.off] + w.cells + mem[w.off + |w.cells|..];
    if w.nul && w.off + |w.cells| < |mem| then m[w.off + |w.cells| := B(0)] else m
  }

  function Run(mem: seq<Cell>, ws: seq<Write>): (r: seq<Cell>)
    requires forall i :: 0 <= i < |ws| ==> ws[i].off + |ws[i].cells| <= |mem|
    ensures |r| == |mem|
    decreases |ws|
  {
    if |ws| == 0 then mem else Run(Apply(mem, ws[0]), ws[1..])
  }

  /** No pointers, bitfields, overlays or checksums; sizes as the layout promises them. */
  predicate Squashable(a: Arg)
    decreases a
  {
    match a
    case Const(size, _, format, pad) => pad || Fits(format, size)
    case Result(size, format, _, _) => Fits(format, size) && format != BigEndian
    case Group(size, inner) => Sizes(inner) <= size && forall i :: 0 <= i < |inner| ==> Squashable(inner[i])
    case Union(size, varlen, o) => Squashable(o) && (!varlen ==> Size(o) <= size)
    case _ => true
  }

  /** What the memory of an argument holds in the end. */
  function Meaning(a: Arg): seq<Cell>
    requires Squashable(a)
    decreases a
  {
    match a
    case Const(size, v, format, pad) => if pad then Zeros(size) else Cells(Stored(v as int, format, size))
    case Result(size, format, id, dir) => if dir == Out then Zeros(size) else ResultCells(id, format, size)
    case Data(bytes) => Cells(bytes)
    case OutData(size) => Zeros(size)
    case Group(size, inner) => Meanings(inner) + Zeros(size - Sizes(inner))
    case Union(size, varlen, o) => Meaning(o) + Zeros(if varlen then 0 else size - Size(o))
  }

  function Meanings(fs: seq<Arg>): seq<Cell>
    requires forall i :: 0 <= i < |fs| ==> Squashable(fs[i])
    decreases fs
  {
    if |fs| == 0 then [] else Meaning(fs[0]) + Meanings(fs[1..])
  }

  lemma {:induction false} MeaningSize(a: Arg)
    requires Squashable(a)
    ensures |Meaning(a)| == Size(a)
    decreases a
  {
    match a
    case Group(_, inner) => MeaningsSize(inner);
    case Union(_, _, o) => MeaningSize(o);
    case _ =>
  }

  lemma {:induction false} MeaningsSize(fs: seq<Arg>)
    requires forall i :: 0 <= i < |fs| ==> Squashable(fs[i])
    ensures |Meanings(fs)| == Sizes(fs)
    decreases fs
  {
    if |fs| > 0 {
      MeaningSize(fs[0]);
      MeaningsSize(fs[1..]);
    }
  }

  // ----- copyin -----

  /** The stores of the copyin instructions, in the order of the traversal. */
  function Writes(a: Arg, off: nat): seq<Write>
    requires Squashable(a)
    decreases a
  {
    match a
    case Const(size, v, format, pad) =>
      if pad || size == 0 then [] else [Write(off, Cells(Stored(v as int, format, size)), Text(format))]
    case Result(size, format, id, dir) =>
      if dir == Out || size == 0 then [] else [Write(off, ResultCells(id, format, size), Text(format))]
    case Data(bytes) => if |bytes| == 0 then [] else [Write(off, Cells(bytes), false)]
    case OutData(_) => []
    case Group(_, inner) => WritesAll(inner, off)
    case Union(_, _, o) => Writes(o, off)
  }

  function WritesAll(fs: seq<Arg>, off: nat): seq<Write>
    requires forall i :: 0 <= i < |fs| ==> Squashable(fs[i])
    decreases fs
  {
    if |fs| == 0 then [] else Writes(fs[0], off) + WritesAll(fs[1..], off + Size(fs[0]))
  }

  ghost predicate Inside(ws: seq<Write>, n: nat) {
    forall i :: 0 <= i < |ws| ==> ws[i].off + |ws[i].cells| <= n
  }

  lemma {:induction false} WritesInside(a: Arg, off: nat, n: nat)
    requires Squashable(a) && off + Size(a) <= n
    ensures Inside(Writes(a, off), n)
    decreases a
  {
    match a
    case Group(_, inner) => WritesAllInside(inner, off, n);
    case Union(_, _, o) => WritesInside(o, off, n);
    case _ =>
  }

  lemma {:induction false} WritesAllInside(fs: seq<Arg>, off: nat, n: nat)
    requires (forall i :: 0 <= i < |fs| ==> Squashable(fs[i])) && off + Sizes(fs) <= n
    ensures Inside(WritesAll(fs, off), n)
    decreases fs
  {
    if |fs| > 0 {
      WritesInside(fs[0], off, n);
      WritesAllInside(fs[1..], off + Size(fs[0]), n);
    }
  }

  lemma {:induction false} RunConcat(mem: seq<Cell>, xs: seq<Write>, ys: seq<Write>)
    requires Inside(xs, |mem|) && Inside(ys, |mem|)
    ensures Inside(xs + ys, |mem|) && Run(mem, xs + ys) == Run(Run(mem, xs), ys)
    decreases |xs|
  {
    if |xs| == 0 {
      assert xs + ys == ys;
    } else {
      assert (xs + ys)[1..] == xs[1..] + ys;
      RunConcat(Apply(mem, xs[0]), xs[1..], ys);
    }
  }

  /** Memory that is done up to off and zero from there on. */
  function Filled(done: seq<Cell>, n: nat): seq<Cell>
    requires |done| <= n
  {
    done + Zeros(n - |done|)
  }

  /** One store at the end of what is done: the NUL of a string format lands on a zero. */
  lemma {:induction false} ApplyNext(done: seq<Cell>, cells: seq<Cell>, nul: bool, n: nat)
    requires |done| + |cells| <= n
    ensures Apply(Filled(done, n), Write(|done|, cells, nul)) == Filled(done + cells, n)
  {
    var mem := Filled(done, n);
    assert mem[..|done|] == done;
    assert mem[|done| + |cells|..] == Zeros(n - |done| - |cells|);
  }

  lemma {:induction false} SkipZeros(done: seq<Cell>, k: nat, n: nat)
    requires |done| + k <= n
    ensures Filled(done, n) == Filled(done + Zeros(k), n)
  {
  }

  /** Over zeroed memory, the copyin instructions of an argument leave exactly its meaning. */
  lemma {:induction false} WritesMean(a: Arg, done: seq<Cell>, n: nat)
    requires Squashable(a) && |done| + Size(a) <= n
    ensures Inside(Writes(a, |done|), n) && |Meaning(a)| == Size(a)
    ensures Run(Filled(done, n), Writes(a, |done|)) == Filled(done + Meaning(a), n)
    decreases a
  {
    WritesInside(a, |done|, n);
    MeaningSize(a);
    match a
    case Group(size, inner) =>
      WritesAllMean(inner, done, n);
      SkipZeros(done + Meanings(inner), size - Sizes(inner), n);
      assert done + Meanings(inner) + Zeros(size - Sizes(inner)) == done + Meaning(a);
    case Union(size, varlen, o) =>
      WritesMean(o, done, n);
      var k := if varlen then 0 else size - Size(o);
      SkipZeros(done + Meaning(o), k, n);
      assert done + Meaning(o) + Zeros(k) == done + Meaning(a);
    case _ => LeafMeans(a, done, n);
  }

  lemma {:induction false} LeafMeans(a: Arg, done: seq<Cell>, n: nat)
    requires Squashable(a) && !a.Group? && !a.Union? && |done| + Size(a) <= n && |Meaning(a)| == Size(a)
    requires Inside(Writes(a, |done|), n)
    ensures Run(Filled(done, n), Writes(a, |done|)) == Filled(done + Meaning(a), n)
  {
    var ws := Writes(a, |done|);
    if |ws| == 0 {
      assert Meaning(a) == Zeros(Size(a));
      SkipZeros(done, Size(a), n);
    } else {
      assert ws[1..] == [];
      ApplyNext(done, Meaning(a), ws[0].nul, n);
    }
  }

  lemma {:induction false} WritesAllMean(fs: seq<Arg>, done: seq<Cell>, n: nat)
    requires (forall i :: 0 <= i < |fs| ==> Squashable(fs[i])) && |done| + Sizes(fs) <= n
    ensures Inside(WritesAll(fs, |done|), n) && |Meanings(fs)| == Sizes(fs)
    ensures Run(Filled(done, n), WritesAll(fs, |done|)) == Filled(done + Meanings(fs), n)
    decreases fs
  {
    MeaningsSize(fs);
    WritesAllInside(fs, |done|, n);
    if |fs| == 0 {
      assert done + [] == done;
    } else {
      WritesMean(fs[0], done, n);
      WritesAllMean(fs[1..], done + Meaning(fs[0]), n);
      JoinMeans(fs[0], fs[1..], done, |done| + Size(fs[0]), n);
    }
  }

  lemma {:induction false} JoinMeans(a: Arg, rest: seq<Arg>, done: seq<Cell>, off: nat, n: nat)
    requires Squashable(a) && forall i :: 0 <= i < |rest| ==> Squashable(rest[i])
    requires off == |done| + Size(a) && off + Sizes(rest) <= n && |Meaning(a)| == Size(a)
             && |Meanings(rest)| == Sizes(rest)
    requires Inside(Writes(a, |done|), n) && Run(Filled(done, n), Writes(a, |done|)) == Filled(done + Meaning(a), n)
    requires Inside(WritesAll(rest, off), n)
    requires Run(Filled(done + Meaning(a), n), WritesAll(rest, off)) == Filled(done + Meaning(a) + Meanings(rest), n)
    ensures Inside(Writes(a, |done|) + WritesAll(rest, off), n)
    ensures Run(Filled(done, n), Writes(a, |done|) + WritesAll(rest, off)) ==
            Filled(done + (Meaning(a) + Meanings(rest)), n)
  {
    RunConcat(Filled(done, n), Writes(a, |done|), WritesAll(rest, off));
    assert done + Meaning(a) + Meanings(rest) == done + (Meaning(a) + Meanings(rest));
  }

  // ----- squashing -----

  /** An element of the squashed array: a blob or a resource, wrapped in the union of both. */
  predicate IsElem(e: Arg) {
    e.Union? && e.varlen && Squashable(e) && (e.option.Data? || e.option.Result?)
  }

  predicate Elems(es: seq<Arg>) { forall i :: 0 <= i < |es| ==> IsElem(es[i]) }

  function Blob(bytes: seq<byte>): Arg { Union(0, true, Data(bytes)) }

  lemma {:induction false} MeaningsConcat(xs: seq<Arg>, ys: seq<Arg>)
    requires forall i :: 0 <= i < |xs| ==> Squashable(xs[i])
    requires forall i :: 0 <= i < |ys| ==> Squashable(ys[i])
    ensures Meanings(xs + ys) == Meanings(xs) + Meanings(ys)
  {
    if |xs| == 0 {
      assert xs + ys == ys;
    } else {
      assert (xs + ys)[1..] == xs[1..] + ys;
      MeaningsConcat(xs[1..], ys);
    }
  }

  lemma {:induction false} MeaningsSnoc(xs: seq<Arg>, x: Arg)
    requires (forall i :: 0 <= i < |xs| ==> Squashable(xs[i])) && Squashable(x)
    ensures Meanings(xs + [x]) == Meanings(xs) + Meaning(x)
  {
    MeaningsConcat(xs, [x]);
    assert [x][1..] == [];
    assert Meanings([x]) == Meaning(x) + [];
  }

  lemma {:induction false} BlobMeaning(bytes: seq<byte>)
    ensures Meaning(Blob(bytes)) == Cells(bytes)
  {
    assert Cells(bytes) + Zeros(0) == Cells(bytes);
  }

  function ZeroBytes(n: nat): (r: seq<byte>)
    ensures |r| == n && Cells(r) == Zeros(n)
  {
    seq(n, _ => 0)
  }

  /** A swapped value written least significant byte first is the value most significant byte first. */
  lemma {:induction false} SwapStores(v: nat, n: nat)
    ensures Le(Swap(v, n), n) == Reverse(Le(v, n))
  {
    LeInverse(Reverse(Le(v, n)));
  }

  lemma {:induction false} EmptyBlob(elems: seq<Arg>)
    requires Elems(elems)
    ensures Elems(elems + [Blob([])]) && Meanings(elems + [Blob([])]) == Meanings(elems)
  {
    BlobMeaning([]);
    MeaningsSnoc(elems, Blob([]));
    assert Meanings(elems) + [] == Meanings(elems);
  }

  class Squasher {
    var elems: seq<Arg>

    constructor ()
      ensures elems == []
    {
      elems := [];
    }

    /** The append to the element that ensureDataElem returns. */
    method AppendData(bytes: seq<byte>)
      requires Elems(elems)
      modifies this
      ensures Elems(elems) && Meanings(elems) == old(Meanings(elems)) + Cells(bytes)
    {
      EnsureData();
      GrowLast(bytes);
    }

    /** ensureDataElem */
    method EnsureData()
      requires Elems(elems)
      modifies this
      ensures Elems(elems) && Meanings(elems) == old(Meanings(elems))
      ensures |elems| > 0 && elems[|elems| - 1].option.Data?
    {
      if |elems| == 0 || !elems[|elems| - 1].option.Data? {
        EmptyBlob(elems);
        elems := elems + [Blob([])];
      }
    }

    method GrowLast(bytes: seq<byte>)
      requires Elems(elems) && |elems| > 0 && elems[|elems| - 1].option.Data?
      modifies this
      ensures Elems(elems) && Meanings(elems) == old(Meanings(elems)) + Cells(bytes)
    {
      var n := |elems| - 1;
      ghost var front, last := elems[..n], elems[n];
      var data := elems[n].option.bytes;
      GrowMeaning(front, last, data, bytes);
      assert elems == front + [last];
      elems := elems[..n] + [Union(elems[n].size, true, Data(data + bytes))];
    }

    /** squashConst */
    method SquashConst(size: nat, val: uint64, format: Format, pad: bool)
      requires Elems(elems) && Squashable(Const(size, val, format, pad))
      modifies this
      ensures Elems(elems) && Meanings(elems) == old(Meanings(elems)) + Meaning(Const(size, val, format, pad))
    {
      if pad {
        AppendData(ZeroBytes(size));
        return;
      }
      var data: seq<byte>;
      if format == Native || format == BigEndian {
        SwapStores(val as int, size);
        var v: nat := if format == BigEndian then Swap(val as int, size) else val as int;
        data := NativeBytes(v, size);
      } else {
        data := TextBytes(val, format, size);
      }
      if |data| != size { assert false; }
      AppendData(data);
    }

    /** squashResult */
    method SquashResult(a: Arg)
      requires Elems(elems) && a.Result? && Squashable(a)
      modifies this
      ensures Elems(elems) && Meanings(elems) == old(Meanings(elems)) + Meaning(a)
    {
      MeaningsSnoc(elems, Union(0, true, a));
      assert Meaning(a) + Zeros(0) == Meaning(a);
      elems := elems + [Union(0, true, a)];
    }

    method Pad(n: nat)
      requires Elems(elems)
      modifies this
      ensures Elems(elems) && Meanings(elems) == old(Meanings(elems)) + Zeros(n)
    {
      if n != 0 { AppendData(ZeroBytes(n)); }
    }

    /** squashPtrImpl */
    method SquashArg(a: Arg)
      requires Elems(elems) && Squashable(a)
      modifies this
      ensures Elems(elems) && Meanings(elems) == old(Meanings(elems)) + Meaning(a)
      decreases a
    {
      match a {
        case Const(size, v, format, pad) => SquashConst(size, v, format, pad);
        case Result(_, _, _, _) => SquashResult(a);
        case Data(bytes) => AppendData(bytes);
        case OutData(size) => Pad(size);
        case Group(size, inner) =>
          SquashGroup(inner);
          Pad(size - Sizes(inner));
          Regroup(old(Meanings(elems)), Meanings(inner), Zeros(size - Sizes(inner)));
        case Union(size, varlen, o) =>
          var pad := if varlen then 0 else size - Size(o);
          SquashArg(o);
          Pad(pad);
          Regroup(old(Meanings(elems)), Meaning(o), Zeros(pad));
      }
    }

    /** The loop of squashGroup. */
    method SquashGroup(inner: seq<Arg>)
      requires Elems(elems) && forall i :: 0 <= i < |inner| ==> Squashable(inner[i])
      modifies this
      ensures Elems(elems) && Meanings(elems) == old(Meanings(elems)) + Meanings(inner)
      decreases inner
    {
      ghost var start := Meanings(elems);
      var i := 0;
      assert inner[..0] == [];
      while i < |inner|
        invariant 0 <= i <= |inner| && Elems(elems)
        invariant Meanings(elems) == start + Meanings(inner[..i])
      {
        assert inner[..i + 1] == inner[..i] + [inner[i]];
        MeaningsSnoc(inner[..i], inner[i]);
        SquashArg(inner[i]);
        Regroup(start, Meanings(inner[..i]), Meaning(inner[i]));
        i := i + 1;
      }
      assert inner[..i] == inner;
    }
  }

  lemma {:induction false} Regroup<T>(a: seq<T>, b: seq<T>, c: seq<T>)
    ensures a + b + c == a + (b + c)
  {
  }

  lemma {:induction false} GrowMeaning(front: seq<Arg>, last: Arg, data: seq<byte>, bytes: seq<byte>)
    requires Elems(front) && IsElem(last) && last.option == Data(data)
    ensures var grown := Union(last.size, true, Data(data + bytes));
            IsElem(grown) && Meanings(front + [grown]) == Meanings(front + [last]) + Cells(bytes)
  {
    var grown := Union(last.size, true, Data(data + bytes));
    MeaningsSnoc(front, last);
    MeaningsSnoc(front, grown);
    assert Meaning(last) == Cells(data) + Zeros(0) == Cells(data);
    assert Meaning(grown) == Cells(data + bytes) + Zeros(0) == Cells(data) + Cells(bytes);
    Regroup(Meanings(front), Cells(data), Cells(bytes));
  }

  /** for (i < size) data = append(data, byte(v)); v >>= 8 */
  method NativeBytes(val: nat, size: nat) returns (data: seq<byte>)
    ensures data == Le(val, size)
  {
    data := [];
    var v := val;
    var i := 0;
    while i < size
      invariant 0 <= i <= size && data + Le(v, size - i) == Le(val, size)
    {
      assert data + ([(v % 256) as byte] + Le(v / 256, size - i - 1)) ==
             (data + [(v % 256) as byte]) + Le(v / 256, size - (i + 1));
      data := data + [(v % 256) as byte];
      v := v / 256;
      i := i + 1;
    }
  }

  function Power(base: nat, n: nat): nat { if n == 0 then 1 else base * Power(base, n - 1) }

  lemma {:induction false} MulMono(base: nat, m: nat, n: nat)
    requires m <= n
    ensures base * m <= base * n
  {
  }

  lemma {:induction false} DigitsLeft(v: nat, base: nat, n: nat)
    requires base > 0 && v < base * n
    ensures v / base < n
  {
    if n <= v / base { MulMono(base, n, v / base); }
  }

  /** The value v still to be printed in k digits, in front of those printed so far. */
  ghost predicate Printing(v: nat, base: nat, k: nat, data: seq<byte>, all: seq<byte>)
    requires 2 <= base <= 16
  {
    forall u: bool {:trigger Open(u)} :: Open(u) ==> v < Power(base, k) && Digits(v, base, k) + data == all
  }

  lemma {:induction false} PrintEnd(v: nat, base: nat, data: seq<byte>, all: seq<byte>)
    requires 2 <= base <= 16 && Printing(v, base, 0, data, all)
    ensures v == 0 && data == all
  {
    assert Open(true);
    assert [] + data == data;
  }

  /** One more digit in front; the rest of the value is left. */
  method PrintDigit(v: nat, base: nat, data: seq<byte>, ghost k: nat, ghost all: seq<byte>)
    returns (rest: nat, more: seq<byte>)
    requires 2 <= base <= 16 && Printing(v, base, k, data, all) && (v > 0 || k > 0)
    ensures k > 0 && Printing(rest, base, k - 1, more, all) && |more| == |data| + 1
  {
    assert Open(true);
    DigitsLeft(v, base, Power(base, k - 1));
    Regroup(Digits(v / base, base, k - 1), [Digit(v % base)], data);
    return v / base, [Digit(v % base)] + data;
  }

  /** Every 64-bit value has at most 20 decimal, 16 hexadecimal and 22 octal digits. */
  lemma {:induction false} DigitsSuffice()
    ensures 0x1_0000_0000_0000_0000 <= Power(10, 20) && 0x1_0000_0000_0000_0000 <= Power(16, 16)
    ensures 0x1_0000_0000_0000_0000 <= Power(8, 23)
  {
    assert Power(10, 4) == 10_000 && Power(16, 4) == 0x1_0000 && Power(8, 4) == 4096;
    PowerAdd(10, 4, 4);
    PowerAdd(10, 8, 8);
    PowerAdd(10, 16, 4);
    PowerAdd(16, 4, 4);
    PowerAdd(16, 8, 8);
    PowerAdd(8, 4, 4);
    PowerAdd(8, 8, 8);
    PowerAdd(8, 16, 4);
    PowerAdd(8, 20, 3);
    assert Power(8, 3) == 512;
  }

  lemma {:induction false} PowerAdd(base: nat, m: nat, n: nat)
    ensures Power(base, m + n) == Power(base, m) * Power(base, n)
  {
    if m > 0 {
      PowerAdd(base, m - 1, n);
      assert base * (Power(base, m - 1) * Power(base, n)) == base * Power(base, m - 1) * Power(base, n);
    }
  }

  /** Sprintf of a number padded with zeros to n digits: digits come from the low end until nothing is left. */
  method Printed(val: nat, base: nat, n: nat) returns (data: seq<byte>)
    requires 2 <= base <= 16 && val < Power(base, n)
    ensures data == Digits(val, base, n)
  {
    data := [];
    var v := val;
    assert Digits(val, base, n) + [] == Digits(val, base, n);
    while v > 0 || |data| < n
      invariant |data| <= n && v >= 0 && Printing(v, base, n - |data|, data, Digits(val, base, n))
      decreases n - |data|
    {
      v, data := PrintDigit(v, base, data, n - |data|, Digits(val, base, n));
    }
    PrintEnd(v, base, data, Digits(val, base, n));
  }

  /** The text formats of squashConst. */
  method TextBytes(val: uint64, format: Format, size: nat) returns (data: seq<byte>)
    requires Text(format) && Fits(format, size)
    ensures data == Stored(val as int, format, size)
  {
    DigitsSuffice();
    if format == StrDec {
      data := Printed(val as int, 10, 20);
    } else if format == StrHex {
      var digits := Printed(val as int, 16, 16);
      data := [48, 120] + digits;
    } else {
      data := Printed(val as int, 8, 23);
    }
  }

  /** squashPtr: the new pointee has the same size and the same meaning. */
  method SquashPtr(res0: Arg) returns (res: Arg)
    requires Squashable(res0)
    ensures res.Group? && Squashable(res) && Elems(res.inner)
    ensures Size(res) == Size(res0) && Meaning(res) == Meaning(res0)
    ensures forall n: nat :: n >= Size(res0) ==> LeaveSame(res0, res, n)
  {
    var s := new Squasher();
    s.SquashArg(res0);
    MeaningSize(res0);
    MeaningsSize(s.elems);
    assert [] + Meaning(res0) == Meaning(res0);
    if Sizes(s.elems) != Size(res0) { assert false; }
    assert Meanings(s.elems) + Zeros(0) == Meanings(s.elems);
    res := Group(Sizes(s.elems), s.elems);
    forall n: nat | n >= Size(res0) ensures LeaveSame(res0, res, n) { SameMemory(res0, res, n); }
  }

  /** The copyin instructions of both arguments leave n bytes of zeroed memory the same, and touch no others. */
  ghost predicate LeaveSame(a: Arg, b: Arg, n: nat)
    requires Squashable(a) && Squashable(b)
  {
    Inside(Writes(a, 0), n) && Inside(Writes(b, 0), n) && Run(Zeros(n), Writes(a, 0)) == Run(Zeros(n), Writes(b, 0))
  }

  lemma {:induction false} MemoryIs(a: Arg, n: nat)
    requires Squashable(a) && Size(a) <= n
    ensures Inside(Writes(a, 0), n) && |Meaning(a)| == Size(a)
    ensures Run(Zeros(n), Writes(a, 0)) == Filled(Meaning(a), n)
  {
    var none: seq<Cell> := [];
    WritesMean(a, none, n);
    assert Filled(none, n) == Zeros(n);
    assert none + Meaning(a) == Meaning(a);
  }

  /** Arguments of the same meaning, such as a pointee before and after squashing, leave the same memory. */
  lemma {:induction false} SameMemory(a: Arg, b: Arg, n: nat)
    requires Squashable(a) && Squashable(b) && Meaning(a) == Meaning(b) && Size(a) <= n
    ensures Size(b) == Size(a) && LeaveSame(a, b, n)
  {
    MeaningSize(a);
    MeaningSize(b);
    MemoryIs(a, n);
    MemoryIs(b, n);
  }
}
