/**
 Zigzag varints of the exec format: the writer (prog/encodingexec.go, Go's encoding/binary) and
 both readers, Go's binary.Varint and the executor's read_input (executor/executor.cc).
 */
module Varint {
  import opened Basics
  import opened Bits

  const TWO63: int := 0x8000_0000_0000_0000
  const TWO64: int := 0x1_0000_0000_0000_0000
  type uint64 = x: int | 0 <= x < 0x1_0000_0000_0000_0000

  /** A value and the position behind it. */
  datatype Item<+T> = Item(val: T, next: nat)

  // ----- specification -----

  /** Signed values of small magnitude get small codes; v is the two's complement of the value. */
  function Zigzag(v: uint64): uint64 {
    if v < TWO63 then 2 * v else 2 * (TWO64 - 1 - v) + 1
  }

  function Unzigzag(u: uint64): uint64 {
    if u % 2 == 1 then TWO64 - 1 - u / 2 else u / 2
  }

  /** Seven bits per byte, least significant first; the high bit says that more bytes follow. */
  function Uvarint(x: nat): (s: seq<byte>)
    ensures |s| >= 1
  {
    if x < 128 then [x] else [x % 128 + 128] + Uvarint(x / 128)
  }

  function Encode(v: uint64): seq<byte> {
    Uvarint(Zigzag(v))
  }

  /** Values that still fit when k of the ten bytes are read: 2^(64 - 7k). */
  function Room(k: nat): (r: nat)
    requires k <= 9
    ensures r >= 2 && (k < 9 ==> r >= 256)
    decreases 9 - k
  {
    if k == 9 then 2 else 128 * Room(k + 1)
  }

  /** The unsigned value at position i when k bytes of it are already read; at most ten bytes in all. */
  function ReadUvarint(data: seq<byte>, i: nat, k: nat): (r: Option<Item<nat>>)
    requires k <= 10
    ensures r.Some? ==> i < r.value.next <= |data|
    decreases 10 - k
  {
    if k == 10 || i >= |data| then None
    else if data[i] < 128 then
      if k == 9 && data[i] > 1 then None else Some(Item(data[i], i + 1))
    else Prepend(data[i] - 128, ReadUvarint(data, i + 1, k + 1))
  }

  /** Seven low bits in front of the rest of a value. */
  function Prepend(b: nat, rest: Option<Item<nat>>): Option<Item<nat>> {
    match rest
    case None => None
    case Some(Item(v, next)) => Some(Item(b + 128 * v, next))
  }

  function Read(data: seq<byte>, i: nat): (r: Option<Item<uint64>>)
    ensures r.Some? ==> i < r.value.next <= |data|
  {
    match ReadUvarint(data, i, 0)
    case None => None
    case Some(Item(u, next)) =>
      ReadBound(data, i, 0);
      assert Room(0) == TWO64;
      Some(Item(Unzigzag(u), next))
  }

  lemma {:induction false} ReadBound(data: seq<byte>, i: nat, k: nat)
    requires k <= 10
    ensures var r := ReadUvarint(data, i, k); r.Some? ==> k <= 9 && r.value.val < Room(k)
    decreases 10 - k
  {
    if k < 10 && i < |data| && data[i] >= 128 { ReadBound(data, i + 1, k + 1); }
  }

  // ----- round trip -----

  lemma {:induction false} ZigzagInverse(v: uint64)
    ensures Unzigzag(Zigzag(v)) == v
    ensures Zigzag(Unzigzag(v)) == v
  {
  }

  /** The value as a signed number. */
  function Signed(v: uint64): int { if v < TWO63 then v else v - TWO64 }

  /** 0, -1, 1, -2, 2, ... get the codes 0, 1, 2, 3, 4, ... */
  lemma {:induction false} ZigzagIs(v: uint64)
    ensures Zigzag(v) == if Signed(v) >= 0 then 2 * Signed(v) else -2 * Signed(v) - 1
  {
  }

  function Power128(k: nat): nat { if k == 0 then 1 else 128 * Power128(k - 1) }

  /** Byte k holds bits 7k to 7k + 6 of the value, and all bytes but the last one have the high bit set. */
  lemma {:induction false} UvarintAt(x: nat, k: nat)
    requires k < |Uvarint(x)|
    ensures Power128(k) > 0
    ensures Uvarint(x)[k] == x / Power128(k) % 128 + (if k + 1 < |Uvarint(x)| then 128 else 0)
    ensures k + 1 == |Uvarint(x)| <==> x / Power128(k) < 128
  {
    if k > 0 {
      UvarintAt(x / 128, k - 1);
      DividedTwice(x, 128, Power128(k - 1));
    }
  }

  lemma {:induction false} DividedTwice(x: nat, a: nat, b: nat)
    requires a > 0 && b > 0
    ensures a * b > 0 && x / a / b == x / (a * b)
  {
    var t, u := x / a / b, x / a % b;
    Parts(x, a, b, x / a, t, u, x % a);
    QuotientIs(x, a * b, t, a * u + x % a);
  }

  lemma {:induction false} Parts(x: nat, a: nat, b: nat, q: nat, t: nat, u: nat, r: nat)
    requires x == a * q + r && r < a && q == b * t + u && u < b
    ensures x == t * (a * b) + (a * u + r) && a * u + r < a * b
  {
    Distribute(a, b * t, u);
    Reorder(a, b, t);
    Below(a, u, b);
  }

  lemma {:induction false} Distribute(a: nat, x: nat, y: nat)
    ensures a * (x + y) == a * x + a * y
  {
  }

  lemma {:induction false} Reorder(a: nat, b: nat, t: nat)
    ensures a * (b * t) == t * (a * b)
  {
  }

  lemma {:induction false} Below(a: nat, u: nat, b: nat)
    requires u < b
    ensures a * u + a <= a * b
  {
    Distribute(a, u, b - u);
    Distribute(a, 1, b - u - 1);
  }

  lemma {:induction false} ReadStep(data: seq<byte>, p: nat, i: nat)
    requires p < |data| && i <= 9
    ensures data[p] < 128 ==> ReadUvarint(data, p, i) == if i == 9 && data[p] > 1 then None
            else Some(Item(data[p] as nat, p + 1))
    ensures data[p] >= 128 && i == 9 ==> ReadUvarint(data, p, i) == None
    ensures data[p] >= 128 && i < 9 ==>
              ReadUvarint(data, p, i) == Prepend(data[p] - 128, ReadUvarint(data, p + 1, i + 1))
  {
  }

  lemma {:induction false} UvarintReads(x: nat, data: seq<byte>, i: nat, k: nat)
    requires k <= 9 && x < Room(k)
    requires i + |Uvarint(x)| <= |data| && data[i..i + |Uvarint(x)|] == Uvarint(x)
    ensures ReadUvarint(data, i, k) == Some(Item(x, i + |Uvarint(x)|))
    ensures |Uvarint(x)| <= 10 - k
    decreases x
  {
    if x < 128 {
      FirstByte(data, i, x as byte, []);
    } else {
      var b: byte := x % 128 + 128;
      FirstByte(data, i, b, Uvarint(x / 128));
      UvarintReads(x / 128, data, i + 1, k + 1);
    }
    ReadStep(data, i, k);
  }

  lemma {:induction false} FirstByte(data: seq<byte>, i: nat, b: byte, rest: seq<byte>)
    requires i + 1 + |rest| <= |data| && data[i..i + 1 + |rest|] == [b] + rest
    ensures data[i] == b && data[i + 1..i + 1 + |rest|] == rest
  {
    var s := data[i..i + 1 + |rest|];
    assert s[0] == data[i];
    assert data[i + 1..i + 1 + |rest|] == s[1..];
  }

  /** Every value is read back from its code, which is at most ten bytes, whatever follows. */
  lemma {:induction false} RoundTrip(v: uint64, data: seq<byte>, i: nat)
    requires i + |Encode(v)| <= |data| && data[i..i + |Encode(v)|] == Encode(v)
    ensures Read(data, i) == Some(Item(v, i + |Encode(v)|))
    ensures |Encode(v)| <= 10
  {
    assert Room(0) == TWO64;
    ZigzagInverse(v);
    UvarintReads(Zigzag(v), data, i, 0);
  }

  // ----- the code -----

  /** binary.AppendVarint(buf, int64(v)) */
  method Append(buf: seq<byte>, v: uint64) returns (r: seq<byte>)
    ensures r == buf + Encode(v)
  {
    var ux: nat := 2 * v % TWO64;
    if v >= TWO63 { ux := TWO64 - 1 - ux; }
    assert ux == Zigzag(v);
    r := buf;
    while ux >= 128
      invariant r + Uvarint(ux) == buf + Encode(v)
    {
      r := r + [ux % 128 + 128];
      ux := ux / 128;
    }
    r := r + [ux];
  }

  /** What a reader holds after some bytes: s low bits x, to be completed by the rest. */
  function Complete(x: nat, s: nat, rest: Option<Item<nat>>): Option<Item<nat>> {
    match rest
    case None => None
    case Some(Item(v, next)) => Some(Item(x + Shl(v, s), next))
  }

  lemma {:induction false} ShlSplit(b: nat, v: nat, k: nat)
    ensures Shl(b + 128 * v, k) == Shl(b, k) + Shl(v, k + 7)
  {
    if k == 0 {
      ShlTwice(v, 0);
      ShlTwice(v, 2);
      ShlTwice(v, 4);
      assert Shl(v, 7) == 2 * Shl(v, 6);
    } else {
      ShlSplit(b, v, k - 1);
    }
  }

  lemma {:induction false} ShlBound(b: nat, k: nat)
    requires b < 128
    ensures Shl(b, k) <= 127 * Pow2(k)
    ensures b < 2 ==> Shl(b, k) <= Pow2(k)
  {
    if k > 0 { ShlBound(b, k - 1); }
  }

  lemma {:induction false} Pow2Seven(n: nat)
    ensures Pow2(n + 7) == 128 * Pow2(n)
  {
    assert Pow2(n + 2) == 4 * Pow2(n);
    assert Pow2(n + 4) == 4 * Pow2(n + 2);
    assert Pow2(n + 6) == 4 * Pow2(n + 4);
  }

  lemma {:induction false} RoomTimes(k: nat)
    requires k <= 9
    ensures Pow2(7 * k) * Room(k) == TWO64
  {
    if k == 0 {
      assert Room(0) == TWO64;
    } else {
      RoomTimes(k - 1);
      Pow2Seven(7 * (k - 1));
      MulAssoc128(Pow2(7 * (k - 1)), Room(k));
    }
  }

  lemma {:induction false} MulAssoc128(x: nat, y: nat)
    ensures x * (128 * y) == (128 * x) * y
  {
  }

  /** Or-ing in seven more bits above s = 7k bits: no bit is lost, for a byte that does not overflow. */
  lemma {:induction false} OrSeven(x: nat, b: nat, k: nat, s: nat)
    requires s == 7 * k && x < Pow2(s) && b < 128 && k <= 9 && (k == 9 ==> b < 2)
    ensures BitOr(x, Shl(b, s)) == x + Shl(b, s) < TWO64
    ensures x + Shl(b, s) < Pow2(s + 7)
  {
    OrShl(x, b, s);
    ShlBound(b, s);
    Pow2Seven(s);
    RoomTimes(k);
    if k < 9 {
      assert Room(k) >= 128;
      MulAtLeast128(Pow2(s), Room(k));
    }
  }

  lemma {:induction false} MulAtLeast128(p: nat, r: nat)
    requires r >= 128
    ensures p * r >= 128 * p
  {
  }

  /** After i continuation bytes up to q, x holds their s = 7i bits, and all is the value to come. */
  ghost predicate Partial(data: seq<byte>, q: nat, i: nat, s: nat, x: nat, all: Option<Item<nat>>) {
    i <= 9 && s == 7 * i && x < Pow2(s) && Complete(x, s, ReadUvarint(data, q, i)) == all
  }

  lemma {:induction false} PartialStart(data: seq<byte>, pos: nat, all: Option<Item<nat>>)
    requires all == ReadUvarint(data, pos, 0)
    ensures Partial(data, pos, 0, 0, 0, all)
  {
    assert Pow2(0) == 1;
    match all
    case None =>
    case Some(Item(v, _)) => assert Shl(v, 0) == v;
  }

  lemma {:induction false} CompleteNext(x: nat, b: nat, s: nat, rest: Option<Item<nat>>)
    ensures Complete(x + Shl(b, s), s + 7, rest) == Complete(x, s, Prepend(b, rest))
  {
    if rest.Some? { ShlSplit(b, rest.value.val, s); }
  }

  lemma {:induction false} Small64(x: nat)
    requires x < TWO64
    ensures x % TWO64 == x
  {
  }

  /** A continuation byte: its seven bits b go above those read so far. */
  lemma {:induction false} PartialNext(data: seq<byte>, q: nat, i: nat, s: nat, x: nat, b: nat, all: Option<Item<nat>>)
    requires Partial(data, q, i, s, x, all) && q < |data| && data[q] >= 128 && b == data[q] - 128
    ensures i == 9 ==> all == None
    ensures i < 9 ==> Partial(data, q + 1, i + 1, s + 7, x + Shl(b, s), all)
  {
    ReadStep(data, q, i);
    if i < 9 {
      CompleteNext(x, b, s, ReadUvarint(data, q + 1, i + 1));
      OrSeven(x, b, i, s);
    }
  }

  lemma {:induction false} PartialLast(data: seq<byte>, q: nat, i: nat, s: nat, x: nat, b: nat, all: Option<Item<nat>>)
    requires Partial(data, q, i, s, x, all) && q < |data| && data[q] < 128 && b == data[q]
    ensures i == 9 && b > 1 ==> all == None
    ensures i < 9 || b <= 1 ==> x + Shl(b, s) < TWO64 && all == Some(Item(x + Shl(b, s), q + 1))
  {
    ReadStep(data, q, i);
    if i < 9 || b <= 1 { OrSeven(x, b, i, s); }
  }

  lemma {:induction false} PartialEnd(data: seq<byte>, q: nat, i: nat, s: nat, x: nat, all: Option<Item<nat>>)
    requires Partial(data, q, i, s, x, all) && q >= |data|
    ensures all == None
  {
  }

  /** The value once its unsigned form is known. */
  lemma {:induction false} ReadIs(data: seq<byte>, pos: nat, all: Option<Item<nat>>)
    requires all == ReadUvarint(data, pos, 0)
    ensures all.None? ==> Read(data, pos) == None
    ensures all.Some? ==> all.value.val < TWO64
                          && Read(data, pos) == Some(Item(Unzigzag(all.value.val), all.value.next))
  {
    ReadBound(data, pos, 0);
    assert Room(0) == TWO64;
  }

  /** x | (uint64(b) << s) */
  method OrIn(x: nat, b: nat, s: nat, ghost k: nat) returns (y: nat)
    requires s == 7 * k && x < Pow2(s) && b < 128 && k <= 9
    ensures k < 9 || b < 2 ==> y == x + Shl(b, s)
  {
    if k < 9 || b < 2 {
      OrSeven(x, b, k, s);
      Small64(x + Shl(b, s));
    }
    y := BitOr(x, Shl(b, s)) % TWO64;
  }

  /** The zigzag bit undone. */
  method Unzig(u: nat) returns (v: uint64)
    requires u < TWO64
    ensures v == Unzigzag(u)
  {
    v := if u % 2 == 1 then TWO64 - 1 - u / 2 else u / 2;
  }

  /** binary.Uvarint on data[pos..] */
  method GoUvarint(data: seq<byte>, pos: nat, ghost all: Option<Item<nat>>) returns (r: Option<Item<nat>>)
    requires pos <= |data| && all == ReadUvarint(data, pos, 0)
    ensures r == all
  {
    var x: nat, s: nat, i: nat, q: nat := 0, 0, 0, pos;
    PartialStart(data, pos, all);
    while q < |data|
      invariant i <= 10 && q <= |data|
      invariant i <= 9 ==> Partial(data, q, i, s, x, all)
      invariant i == 10 ==> all == None
    {
      if i == 10 { return None; }
      var b: nat := data[q];
      if b < 0x80 {
        PartialLast(data, q, i, s, x, b, all);
        if i == 9 && b > 1 { return None; }
        x := OrIn(x, b, s, i);
        return Some(Item(x, q + 1));
      }
      PartialNext(data, q, i, s, x, b - 128, all);
      x := OrIn(x, b - 128, s, i);
      q, i, s := q + 1, i + 1, s + 7;
    }
    if i <= 9 { PartialEnd(data, q, i, s, x, all); }
    return None;
  }

  /** Go's binary.Varint on data[pos..]; None where it reports n <= 0. */
  method GoVarint(data: seq<byte>, pos: nat) returns (r: Option<Item<uint64>>)
    requires pos <= |data|
    ensures r == Read(data, pos)
  {
    ghost var all := ReadUvarint(data, pos, 0);
    ReadIs(data, pos, all);
    var u := GoUvarint(data, pos, all);
    if u.None? { return None; }
    var v := Unzig(u.value.val);
    return Some(Item(v, u.value.next));
  }

  /** The loop of the executor's read_input; None where it fails. */
  method ReadBytes(input: seq<byte>, pos: nat, ghost all: Option<Item<nat>>) returns (r: Option<Item<nat>>)
    requires pos <= |input| && all == ReadUvarint(input, pos, 0)
    ensures r == all
  {
    var v: nat, shift: nat, i: nat, q: nat := 0, 0, 0, pos;
    PartialStart(input, pos, all);
    while true
      invariant i <= 10 && q <= |input|
      invariant i <= 9 ==> Partial(input, q, i, shift, v, all)
      invariant i == 10 ==> all == None
      decreases 10 - i
    {
      if i == 10 { return None; }
      if q >= |input| {
        PartialEnd(input, q, i, shift, v, all);
        return None;
      }
      var b: nat := input[q];
      var low := if b < 0x80 then b else b - 128;  // b & 0x7f
      if b < 0x80 {
        PartialLast(input, q, i, shift, v, b, all);
      } else {
        PartialNext(input, q, i, shift, v, low, all);
      }
      q := q + 1;
      v := OrIn(v, low, shift, i);
      if b < 0x80 {
        if i == 9 && b > 1 { return None; }
        break;
      }
      i := i + 1;
      shift := shift + 7;
    }
    return Some(Item(v, q));
  }

  /** The executor's read_input: the value at pos of the input buffer, or a failure exit. */
  method ReadInput(input: seq<byte>, pos: nat) returns (r: Option<Item<uint64>>)
    requires pos <= |input|
    ensures r == Read(input, pos)
  {
    ghost var all := ReadUvarint(input, pos, 0);
    ReadIs(input, pos, all);
    var u := ReadBytes(input, pos, all);
    if u.None? { return None; }
    var v := Unzig(u.value.val);
    return Some(Item(v, u.value.next));
  }
}
