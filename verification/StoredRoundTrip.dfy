/**
 Sanity theorems about the reference decoder: a complete code never fails, and every byte string,
 written as non-compressed blocks, inflates to itself.
 */
module StoredRoundTrip {
  import opened Bits
  import opened Canonical
  import opened Rfc1951

  /** A symbol is decoded exactly when its code is a prefix of the stream. */
  lemma {:induction false} NextSymbolIff(ls: Lengths, bits: seq<bit>, p: nat, sym: nat)
    ensures NextSymbol(ls, bits, p) == Symbol(sym) <==> Matches(ls, bits, p, sym)
  {
    if Matches(ls, bits, p, sym) { FoundSymbol(ls, bits, p, sym); }
  }

  /** With a complete code, 15 bits of input always give a symbol. */
  lemma {:induction false} CompleteNeverFails(ls: Lengths, bits: seq<bit>, p: nat)
    requires KraftSum(ls) == 0x8000
    ensures NextSymbol(ls, bits, p) != NoCode
  {
    if p + MAX_BITS <= |bits| {
      var sym := CompleteResolves(ls, bits, p);
      FoundSymbol(ls, bits, p, sym);
    }
  }

  lemma {:induction false} SpentStays(ls: seq<nat>, l: nat, m: nat)
    requires l <= m && Left(ls, l) <= 0
    ensures Left(ls, m) <= 0
  {
    if l < m { SpentStays(ls, l, m - 1); }
  }

  const ONES: seq<bit> := seq(MAX_BITS, _ => 1)

  lemma {:induction false} OnesCode(l: nat)
    requires l <= MAX_BITS
    ensures CodeBits(ONES, 0, l) == Pow2(l) - 1
  {
    if l > 0 { OnesCode(l - 1); }
  }

  lemma {:induction false} OnesAboveCodes(ls: Lengths, s: nat)
    requires KraftSum(ls) < 0x8000
    ensures !Matches(ls, ONES, 0, s)
  {
    if s < |ls| && ls[s] >= 1 {
      var l := ls[s];
      LeftIsKraft(ls);
      if Left(ls, l) <= 0 { SpentStays(ls, l, MAX_BITS); }
      LeftIsSpaceAboveCodes(ls, l);
      OnesCode(l);
      CountMono(ls, s, l);
    }
  }

  /** Some bits cannot be decoded exactly if the code space is not used up. */
  lemma {:induction false} FailsIff(ls: Lengths)
    requires !Oversubscribed(ls)
    ensures (exists bits: seq<bit>, p: nat :: NextSymbol(ls, bits, p) == NoCode) <==> KraftSum(ls) < 0x8000
  {
    if KraftSum(ls) < 0x8000 {
      forall s: nat ensures !Matches(ls, ONES, 0, s) { OnesAboveCodes(ls, s); }
      assert NextSymbol(ls, ONES, 0) == NoCode;
    } else {
      forall bits: seq<bit>, p: nat ensures NextSymbol(ls, bits, p) != NoCode { CompleteNeverFails(ls, bits, p); }
    }
  }

  /** With an empty code nothing can be decoded. */
  lemma {:induction false} EmptyAlwaysFails(ls: Lengths, bits: seq<bit>, p: nat)
    requires !HasCodes(ls) && p + MAX_BITS <= |bits|
    ensures NextSymbol(ls, bits, p) == NoCode
  {
    assert forall s :: !Matches(ls, bits, p, s);
  }

  /** When puff_construct returns 0, decoding can fail for want of a code exactly if there are no codes. */
  lemma {:induction false} ZeroFailsIff(ls: Lengths)
    requires CompleteOrEmpty(ls)
    ensures (exists bits: seq<bit>, p: nat :: NextSymbol(ls, bits, p) == NoCode) <==> !HasCodes(ls)
  {
    if !HasCodes(ls) { NoCodesNoKraft(ls); }
    FailsIff(ls);
  }

  /** One non-compressed block at a byte boundary. */
  function StoredBlock(last: bool, data: seq<byte>): (b: seq<byte>)
    requires |data| <= 0xffff
    ensures |b| == 5 + |data|
  {
    var lo: byte, hi: byte := |data| % 256, |data| / 256;
    [if last then 1 else 0, lo, hi, 255 - lo, 255 - hi] + data
  }

  /** Any data as non-compressed blocks of at most 65535 bytes. */
  function Store(data: seq<byte>): seq<byte> {
    if |data| <= 0xffff then StoredBlock(true, data)
    else StoredBlock(false, data[..0xffff]) + Store(data[0xffff..])
  }

  lemma {:induction false} HeaderBits(input: seq<byte>, i: nat)
    requires i < |input| && input[i] < 2
    ensures var bits := ToBits(input);
            bits[8 * i] == input[i] && BitsAt(bits, 8 * i + 1, 2) == 0
  {
    var p := 8 * i;
    assert p / 8 == i && p % 8 == 0;
    assert (p + 1) / 8 == i && (p + 1) % 8 == 1;
    assert (p + 2) / 8 == i && (p + 2) % 8 == 2;
    assert Shr(input[i], 1) == 0 && Shr(input[i], 2) == 0;
    var bits := ToBits(input);
    assert bits[p + 1] == 0 && bits[p + 2] == 0;
    assert BitsAt(bits, p + 2, 1) == bits[p + 2] + 2 * BitsAt(bits, p + 3, 0);
  }

  /** The block for data stands at byte i of input. */
  ghost predicate BlockAt(input: seq<byte>, i: nat, last: bool, data: seq<byte>)
    requires |data| <= 0xffff
  {
    i + 5 + |data| <= |input| && input[i..i + 5 + |data|] == StoredBlock(last, data)
  }

  lemma {:induction false} HeaderAt(input: seq<byte>, i: nat, last: bool, data: seq<byte>)
    requires |data| <= 0xffff && BlockAt(input, i, last, data)
    ensures input[i] == if last then 1 else 0
    ensures StoredLength(input, i + 1) == |data|
    ensures input[i + 5..i + 5 + |data|] == data
  {
    var b := StoredBlock(last, data);
    assert forall k :: 0 <= k < |b| ==> input[i + k] == b[k];
    assert input[i + 0] == b[0] && input[i + 1] == b[1] && input[i + 2] == b[2];
    assert input[i + 3] == b[3] && input[i + 4] == b[4];
    assert b[5..] == data;
    assert input[i + 5..i + 5 + |data|] == input[i..i + 5 + |data|][5..];
  }

  lemma {:induction false} StoredData(input: seq<byte>, i: nat, last: bool, data: seq<byte>, p: nat, out: seq<byte>,
                                      room: nat)
    requires |data| <= 0xffff && BlockAt(input, i, last, data) && |out| + |data| <= room
    requires p == 8 * i + 3
    ensures Stored(input, p, out, room) == Done(8 * (i + 5 + |data|), out + data)
  {
    HeaderAt(input, i, last, data);
    assert (p + 7) / 8 == i + 1;
  }

  lemma {:induction false} InflateStoredBlock(input: seq<byte>, i: nat, j: nat, last: bool, data: seq<byte>,
                                              out: seq<byte>, out': seq<byte>, room: nat)
    requires |data| <= 0xffff && BlockAt(input, i, last, data) && |out| + |data| <= room
    requires j == i + 5 + |data| && out' == out + data
    ensures Inflate(input, 8 * i, out, room) ==
            if last then Done(8 * j, out') else Inflate(input, 8 * j, out', room)
  {
    HeaderAt(input, i, last, data);
    HeaderBits(input, i);
    StoredData(input, i, last, data, 8 * i + 3, out, room);
    assert Block(input, 8 * i, out, room) == Done(8 * j, out');
  }

  /** Storing and inflating is the identity, whatever was decoded before. */
  lemma {:induction false} StoreInflates(input: seq<byte>, i: nat, data: seq<byte>, out: seq<byte>, out': seq<byte>,
                                         room: nat)
    requires |out| + |data| <= room && out' == out + data
    requires i + |Store(data)| == |input| && input[i..] == Store(data)
    ensures Inflate(input, 8 * i, out, room) == Done(8 * |input|, out')
    decreases |data|
  {
    if |data| <= 0xffff {
      assert input[i..i + 5 + |data|] == input[i..];
      InflateStoredBlock(input, i, |input|, true, data, out, out', room);
    } else {
      var head, tail := data[..0xffff], data[0xffff..];
      var j := i + 5 + |head|;
      StoreSplit(input, i, data);
      assert data == head + tail;
      assert out + (head + tail) == (out + head) + tail;
      InflateStoredBlock(input, i, j, false, head, out, out + head, room);
      StoreInflates(input, j, tail, out + head, out', room);
    }
  }

  lemma {:induction false} StoreSplit(input: seq<byte>, i: nat, data: seq<byte>)
    requires |data| > 0xffff
    requires i + |Store(data)| == |input| && input[i..] == Store(data)
    ensures var head, tail := data[..0xffff], data[0xffff..];
            var j := i + 5 + |head|;
            && BlockAt(input, i, false, head)
            && j + |Store(tail)| == |input| && input[j..] == Store(tail)
  {
    var b := StoredBlock(false, data[..0xffff]);
    assert Store(data) == b + Store(data[0xffff..]);
    assert input[i..i + |b|] == input[i..][..|b|];
    assert input[i + |b|..] == input[i..][|b|..];
  }

  lemma {:induction false} StoreRoundTrip(data: seq<byte>, room: nat)
    requires |data| <= room
    ensures Inflate(Store(data), 0, [], room) == Done(8 * |Store(data)|, data)
  {
    StoreInflates(Store(data), 0, data, [], data, room);
  }
}
