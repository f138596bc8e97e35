/**
 Whole streams: any blocks, packed into bytes, inflate to what they stand for, with the code in
 executor/common_zlib.h as well as with the reference.
 */
module DeflateStreams {
  import opened Basics
  import opened Bits
  import opened Canonical
  import opened Rfc1951
  import opened DeflateRoundTrip
  import opened DeflateBlocks
  import D = Deflate
  import P = Puff

  // ----- bytes -----

  lemma {:induction false} BitsConcat(bits: seq<bit>, p: nat, a: nat, b: nat)
    requires p + a + b <= |bits|
    ensures BitsAt(bits, p, a + b) == BitsAt(bits, p, a) + Pow2(a) * BitsAt(bits, p + a, b)
    decreases a
  {
    if a > 0 {
      BitsConcat(bits, p + 1, a - 1, b);
      DoubleProduct(Pow2(a - 1), BitsAt(bits, p + a, b));
    }
  }

  lemma {:induction false} DoubleProduct(x: nat, y: nat)
    ensures 2 * x * y == 2 * (x * y)
  {
  }

  /** Sixteen bits at a byte boundary are two bytes. */
  lemma {:induction false} TwoBytes(input: seq<byte>, i: nat, p: nat, v: nat)
    requires p == 8 * i && v < 0x1_0000 && Holds(ToBits(input), p, D.Number(v, 16))
    ensures i + 2 <= |input| && (input[i] as int) + 256 * (input[i + 1] as int) == v
  {
    var bits := ToBits(input);
    LargePowers();
    assert Pow2(16) == 8 * Pow2(13);
    NumberReads(bits, p, v, 16);
    BitsConcat(bits, p, 8, 8);
    ByteBits(input, i, p);
    ByteBits(input, i + 1, p + 8);
  }

  lemma {:induction false} OneByte(input: seq<byte>, i: nat, p: nat, b: byte)
    requires p == 8 * i && Holds(ToBits(input), p, D.Number(b as int, 8))
    ensures i < |input| && input[i] == b
  {
    LargePowers();
    NumberReads(ToBits(input), p, b as int, 8);
    ByteBits(input, i, p);
  }

  lemma {:induction false} BytesRead(input: seq<byte>, i: nat, p: nat, data: seq<byte>)
    requires p == 8 * i && Holds(ToBits(input), p, D.BytesBits(data))
    ensures i + |data| <= |input| && input[i..i + |data|] == data
    decreases |data|
  {
    if |data| == 0 {
      HoldsIs(ToBits(input), p, D.BytesBits(data));
    } else {
      HoldsSplit(ToBits(input), p, D.Number(data[0] as int, 8), D.BytesBits(data[1..]));
      OneByte(input, i, p, data[0]);
      BytesRead(input, i + 1, p + 8, data[1..]);
      assert input[i..i + |data|] == [input[i]] + input[i + 1..i + |data|];
    }
  }

  // ----- blocks without compression (section 3.2.4) -----

  lemma {:induction false} PaddingEnds(p: nat, i: nat)
    requires i == (p + 7) / 8
    ensures p + |D.Padding(p)| == 8 * i
  {
  }

  /** Where the parts of such a block stand. */
  lemma {:induction false} PlainParts(bits: seq<bit>, p: nat, q: nat, r: nat, s: nat, a: seq<bit>, b: seq<bit>,
                                      c: seq<bit>, d: seq<bit>, e: nat)
    requires Holds(bits, p, a + b + c + d) && e == p + |a + b + c + d|
    requires q == p + |a| && r == q + |b| && s == r + |c|
    ensures Holds(bits, q, b) && Holds(bits, r, c) && Holds(bits, s, d) && e == s + |d|
  {
    HoldsSplit(bits, p, a + b + c, d);
    HoldsSplit(bits, p, a + b, c);
    HoldsSplit(bits, p, a, b);
  }

  lemma {:induction false} PlainStands(input: seq<byte>, p: nat, i: nat, data: seq<byte>, check: nat, e: nat)
    requires i == (p + 7) / 8 && |data| <= 0xffff && check <= 0xffff
    requires Holds(ToBits(input), p, D.DataBits(D.Plain(data, check), p))
             && e == p + |D.DataBits(D.Plain(data, check), p)|
    ensures i + 4 + |data| <= |input| && e == 8 * (i + 4 + |data|)
    ensures (input[i] as int) + 256 * (input[i + 1] as int) == |data|
    ensures (input[i + 2] as int) + 256 * (input[i + 3] as int) == check
    ensures input[i + 4..i + 4 + |data|] == data
  {
    var q, r, t := 8 * i, 8 * (i + 2), 8 * (i + 4);
    PaddingEnds(p, i);
    PlainParts(ToBits(input), p, q, r, t, D.Padding(p), D.Number(|data|, 16), D.Number(check, 16), D.BytesBits(data),
        e);
    PlainFields(input, i, q, r, t, data, check);
  }

  lemma {:induction false} PlainFields(input: seq<byte>, i: nat, q: nat, r: nat, t: nat, data: seq<byte>, check: nat)
    requires q == 8 * i && r == 8 * (i + 2) && t == 8 * (i + 4) && |data| <= 0xffff && check <= 0xffff
    requires Holds(ToBits(input), q, D.Number(|data|, 16)) && Holds(ToBits(input), r, D.Number(check, 16))
    requires Holds(ToBits(input), t, D.BytesBits(data))
    ensures i + 4 + |data| <= |input| && input[i + 4..i + 4 + |data|] == data
    ensures (input[i] as int) + 256 * (input[i + 1] as int) == |data|
    ensures (input[i + 2] as int) + 256 * (input[i + 3] as int) == check
  {
    TwoBytes(input, i, q, |data|);
    TwoBytes(input, i + 2, r, check);
    BytesRead(input, i + 4, t, data);
  }

  lemma {:induction false} StoredFrom(input: seq<byte>, p: nat, i: nat, data: seq<byte>, check: nat, out: seq<byte>,
                                      room: nat)
    requires i == (p + 7) / 8 && i + 4 + |data| <= |input| && |out| <= room
    requires (input[i] as int) + 256 * (input[i + 1] as int) == |data|
    requires (input[i + 2] as int) + 256 * (input[i + 3] as int) == check
    requires input[i + 4..i + 4 + |data|] == data
    ensures Stored(input, p, out, room) ==
            if |data| + check != 0xffff then Fail(-2, out)
            else if |out| + |data| > room then Fail(1, out)
            else Done(8 * (i + 4 + |data|), out + data)
  {
  }

  lemma {:induction false} PlainReads(input: seq<byte>, p: nat, data: seq<byte>, check: nat, out: seq<byte>, room: nat,
                                      e: nat)
    requires |out| <= room && |data| <= 0xffff && check <= 0xffff
    requires Holds(ToBits(input), p, D.DataBits(D.Plain(data, check), p))
             && e == p + |D.DataBits(D.Plain(data, check), p)|
    ensures Stored(input, p, out, room) == Result(D.BlockMeaning(D.Plain(data, check), out, room), e)
  {
    var i := (p + 7) / 8;
    PlainStands(input, p, i, data, check, e);
    StoredFrom(input, p, i, data, check, out, room);
  }

  // ----- blocks with codes of their own -----

  lemma {:induction false} DynamicFrom(bits: seq<bit>, p: nat, out: seq<byte>, room: nat, h: Header)
    requires |out| <= room && DynamicHeader(bits, p) == h
    ensures Dynamic(bits, p, out, room) ==
            match h
            case BadHeader(err) => Fail(err, out)
            case Header(lit, dist, q) => if |dist| <= 30 then Codes(lit, dist, bits, q, out, room) else Fail(0, out)
  {
  }

  lemma {:induction false} UsableKraft(ls: seq<nat>, nlen: nat)
    requires D.AreLengths(ls) && 257 <= nlen <= |ls| && D.LengthsError(ls, nlen) == 0
    ensures KraftSum(ls[..nlen]) <= 0x8000 && KraftSum(ls[nlen..]) <= 0x8000
  {
  }

  /** The tokens behind the codes. */
  lemma {:induction false} CodedReads(bits: seq<bit>, q: nat, lit: Lengths, dist: Lengths, ts: seq<D.Token>,
                                      out: seq<byte>, room: nat, e: nat)
    requires KraftSum(lit) <= 0x8000 && KraftSum(dist) <= 0x8000 && |dist| <= 30 && |out| <= room
    requires D.AreTokens(ts) && D.Coded(lit, dist, ts)
    requires Holds(bits, q, D.TokensBits(D.BookOf(lit), D.BookOf(dist), ts))
    requires e == q + |D.TokensBits(D.BookOf(lit), D.BookOf(dist), ts)|
    ensures Codes(lit, dist, bits, q, out, room) == Result(D.Expand(ts, out, room), e)
  {
    TokensRead(lit, dist, bits, q, ts, out, room, e);
    assert Open(true);
  }

  lemma {:induction false} Sends(c: D.Codes, ts: seq<D.Token>, total: nat, u: D.Unrolled)
    requires D.IsBlock(D.Dynamic(c, ts)) && total == c.nlen + c.ndist && u == D.SentLengths(c)
    ensures D.AreCodes(c) && D.AreTokens(ts) && D.CodedRuns(c.cl, c.runs) && StandFor(c.runs, total, u)
  {
  }

  lemma {:induction false} RefusedCodes(c: D.Codes, err: int, e: nat)
    requires D.AreCodes(c) && D.CodesError(c) == err != 0
    ensures Heads(c, e, BadHeader(err))
  {
  }

  /** What makes a dynamic block decodable. */
  lemma {:induction false} UsableCodes(c: D.Codes, ts: seq<D.Token>, total: nat, u: D.Unrolled)
    requires D.IsBlock(D.Dynamic(c, ts)) && total == c.nlen + c.ndist && u == D.SentLengths(c)
    requires D.CodesError(c) == 0
    ensures u.Whole? && D.AreLengths(u.ls) && |u.ls| == total && c.nlen <= total && c.ndist <= 30
    ensures KraftSum(u.ls[..c.nlen]) <= 0x8000 && KraftSum(u.ls[c.nlen..]) <= 0x8000
    ensures D.Coded(u.ls[..c.nlen], u.ls[c.nlen..], ts)
  {
    UnrollLengths(c.runs, [], total);
    UsableKraft(u.ls, c.nlen);
  }

  lemma {:induction false} AcceptedCodes(c: D.Codes, ts: seq<D.Token>, total: nat, u: D.Unrolled, e: nat, lit: Lengths,
                                         dist: Lengths)
    requires D.IsBlock(D.Dynamic(c, ts)) && total == c.nlen + c.ndist && u == D.SentLengths(c)
    requires D.CodesError(c) == 0 && u.Whole? && c.nlen <= |u.ls| && lit == u.ls[..c.nlen] && dist == u.ls[c.nlen..]
    ensures KraftSum(lit) <= 0x8000 && KraftSum(dist) <= 0x8000 && |dist| <= 30 && D.Coded(lit, dist, ts)
    ensures Heads(c, e, Header(lit, dist, e))
  {
    UsableCodes(c, ts, total, u);
  }

  lemma {:induction false} TwoCodes(ls: seq<nat>, nlen: nat) returns (lit: Lengths, dist: Lengths)
    requires D.AreLengths(ls) && nlen <= |ls|
    ensures lit == ls[..nlen] && dist == ls[nlen..]
  {
    lit, dist := ls[..nlen], ls[nlen..];
  }

  lemma {:induction false} RefusedReads(bits: seq<bit>, p: nat, q: nat, c: D.Codes, total: nat, u: D.Unrolled, err: int,
                                        out: seq<byte>, room: nat)
    requires D.AreCodes(c) && D.CodedRuns(c.cl, c.runs) && total == c.nlen + c.ndist && StandFor(c.runs, total, u)
    requires Holds(bits, p, D.CodesBits(c)) && q == p + |D.CodesBits(c)| && Heads(c, q, BadHeader(err))
    requires |out| <= room
    ensures Dynamic(bits, p, out, room) == Fail(err, out)
  {
    CodesRead(bits, p, c, total, u, q, BadHeader(err));
    DynamicFrom(bits, p, out, room, BadHeader(err));
  }

  lemma {:induction false} AcceptedReads(bits: seq<bit>, p: nat, q: nat, c: D.Codes, total: nat, u: D.Unrolled,
                                         lit: Lengths, dist: Lengths, ts: seq<D.Token>, out: seq<byte>, room: nat,
                                         e: nat)
    requires D.AreCodes(c) && D.CodedRuns(c.cl, c.runs) && total == c.nlen + c.ndist && StandFor(c.runs, total, u)
    requires Holds(bits, p, D.CodesBits(c)) && q == p + |D.CodesBits(c)| && Heads(c, q, Header(lit, dist, q))
    requires KraftSum(lit) <= 0x8000 && KraftSum(dist) <= 0x8000 && |dist| <= 30 && |out| <= room
    requires D.AreTokens(ts) && D.Coded(lit, dist, ts)
    requires Holds(bits, q, D.TokensBits(D.BookOf(lit), D.BookOf(dist), ts))
    requires e == q + |D.TokensBits(D.BookOf(lit), D.BookOf(dist), ts)|
    ensures Dynamic(bits, p, out, room) == Result(D.Expand(ts, out, room), e)
  {
    CodesRead(bits, p, c, total, u, q, Header(lit, dist, q));
    DynamicFrom(bits, p, out, room, Header(lit, dist, q));
    CodedReads(bits, q, lit, dist, ts, out, room, e);
  }

  /** The data of a dynamic block: its codes, then its tokens in those codes. */
  lemma {:induction false} DynamicData(p: nat, c: D.Codes, ts: seq<D.Token>, total: nat, u: D.Unrolled, x: seq<bit>,
                                       y: seq<bit>)
    requires D.IsBlock(D.Dynamic(c, ts)) && total == c.nlen + c.ndist && u == D.SentLengths(c)
    requires x == D.CodesBits(c) && y == D.CodedBits(u, c.nlen, ts)
    ensures D.DataBits(D.Dynamic(c, ts), p) == x + y
  {
  }

  lemma {:induction false} TwoParts(bits: seq<bit>, p: nat, q: nat, x: seq<bit>, y: seq<bit>, all: seq<bit>, e: nat)
    requires all == x + y && Holds(bits, p, all) && e == p + |all| && q == p + |x|
    ensures Holds(bits, p, x) && Holds(bits, q, y) && e == q + |y|
  {
    HoldsSplit(bits, p, x, y);
  }

  lemma {:induction false} DynamicSplits(bits: seq<bit>, p: nat, q: nat, c: D.Codes, ts: seq<D.Token>, total: nat,
                                         u: D.Unrolled, x: seq<bit>, y: seq<bit>, e: nat)
    requires D.IsBlock(D.Dynamic(c, ts)) && total == c.nlen + c.ndist && u == D.SentLengths(c)
    requires x == D.CodesBits(c) && y == D.CodedBits(u, c.nlen, ts)
    requires Holds(bits, p, D.DataBits(D.Dynamic(c, ts), p)) && e == p + |D.DataBits(D.Dynamic(c, ts), p)|
    requires q == p + |x|
    ensures Holds(bits, p, x) && Holds(bits, q, y) && e == q + |y|
  {
    DynamicData(p, c, ts, total, u, x, y);
    TwoParts(bits, p, q, x, y, D.DataBits(D.Dynamic(c, ts), p), e);
  }

  lemma {:induction false} DynamicReads(bits: seq<bit>, p: nat, q: nat, c: D.Codes, ts: seq<D.Token>, total: nat,
                                        u: D.Unrolled, out: seq<byte>, room: nat, e: nat)
    requires D.IsBlock(D.Dynamic(c, ts)) && total == c.nlen + c.ndist && u == D.SentLengths(c)
    requires Holds(bits, p, D.DataBits(D.Dynamic(c, ts), p)) && e == p + |D.DataBits(D.Dynamic(c, ts), p)|
    requires q == p + |D.CodesBits(c)| && |out| <= room
    ensures Dynamic(bits, p, out, room) == Result(D.BlockMeaning(D.Dynamic(c, ts), out, room), e)
  {
    Sends(c, ts, total, u);
    DynamicSplits(bits, p, q, c, ts, total, u, D.CodesBits(c), D.CodedBits(u, c.nlen, ts), e);
    var err := D.CodesError(c);
    if err != 0 {
      RefusedCodes(c, err, q);
      RefusedReads(bits, p, q, c, total, u, err, out, room);
    } else {
      UsableCodes(c, ts, total, u);
      var lit, dist := TwoCodes(u.ls, c.nlen);
      AcceptedCodes(c, ts, total, u, q, lit, dist);
      AcceptedReads(bits, p, q, c, total, u, lit, dist, ts, out, room, e);
    }
  }

  // ----- all blocks -----

  lemma {:induction false} PlainBlock(input: seq<byte>, p: nat, b: D.Block, out: seq<byte>, room: nat, e: nat)
    requires |out| <= room && D.IsBlock(b) && Holds(ToBits(input), p, D.DataBits(b, p)) && e == p + |D.DataBits(b, p)|
    requires b.Plain?
    ensures Stored(input, p, out, room) == Result(D.BlockMeaning(b, out, room), e)
  {
    PlainReads(input, p, b.data, b.check, out, room, e);
  }

  lemma {:induction false} FixedBlock(bits: seq<bit>, p: nat, b: D.Block, out: seq<byte>, room: nat, e: nat)
    requires |out| <= room && D.IsBlock(b) && Holds(bits, p, D.DataBits(b, p)) && e == p + |D.DataBits(b, p)|
    requires b.Fixed?
    ensures Codes(FixedLit(), FixedDist(), bits, p, out, room) == Result(D.BlockMeaning(b, out, room), e)
  {
    FixedReads(bits, p, b.ts, out, room, e);
  }

  lemma {:induction false} DynamicBlock(bits: seq<bit>, p: nat, b: D.Block, out: seq<byte>, room: nat, e: nat)
    requires |out| <= room && D.IsBlock(b) && Holds(bits, p, D.DataBits(b, p)) && e == p + |D.DataBits(b, p)|
    requires b.Dynamic?
    ensures Dynamic(bits, p, out, room) == Result(D.BlockMeaning(b, out, room), e)
  {
    var c, ts := b.codes, b.ts;
    assert b == D.Dynamic(c, ts);
    var total := c.nlen + c.ndist;
    DynamicReads(bits, p, p + |D.CodesBits(c)|, c, ts, total, D.SentLengths(c), out, room, e);
  }

  lemma {:induction false} ReservedBlock(out: seq<byte>, room: nat, e: nat)
    ensures Result(D.BlockMeaning(D.Reserved, out, room), e) == Fail(-1, out)
  {
  }

  /** The two bits of type, first bit least significant. */
  function TypeOf(b: D.Block): (n: nat)
    ensures n < 4
  {
    (D.HeadBits(true, b)[1] as int) + 2 * (D.HeadBits(true, b)[2] as int)
  }

  /** The data of a block is decoded to what it stands for. */
  lemma {:induction false} BlockReads(input: seq<byte>, p: nat, b: D.Block, out: seq<byte>, room: nat, e: nat)
    requires |out| <= room && D.IsBlock(b) && Holds(ToBits(input), p, D.DataBits(b, p)) && e == p + |D.DataBits(b, p)|
    ensures BlockData(input, TypeOf(b), p, out, room) == Result(D.BlockMeaning(b, out, room), e)
  {
    match b {
      case Plain(_, _) => PlainBlock(input, p, b, out, room, e);
      case Fixed(_) => FixedBlock(ToBits(input), p, b, out, room, e);
      case Dynamic(_, _) => DynamicBlock(ToBits(input), p, b, out, room, e);
      case Reserved => ReservedBlock(out, room, e);
    }
  }

  lemma {:induction false} HeadReads(bits: seq<bit>, p: nat, last: bool, b: D.Block)
    requires Holds(bits, p, D.HeadBits(last, b))
    ensures p + 3 <= |bits| && (bits[p] == 1 <==> last) && BitsAt(bits, p + 1, 2) == TypeOf(b)
  {
    var h := D.HeadBits(last, b);
    HoldsIs(bits, p, h);
    assert bits[p] == bits[p..p + 3][0] && bits[p + 1] == bits[p..p + 3][1] && bits[p + 2] == bits[p..p + 3][2];
    assert BitsAt(bits, p + 3, 0) == 0;
  }

  // ----- streams (section 3.2.3) -----

  lemma {:induction false} InflateFrom(input: seq<byte>, p: nat, last: bool, kind: nat, out: seq<byte>, room: nat,
                                       r: Outcome)
    requires |out| <= room && p + 3 <= |ToBits(input)| && (ToBits(input)[p] == 1 <==> last)
    requires BitsAt(ToBits(input), p + 1, 2) == kind && BlockData(input, kind, p + 3, out, room) == r
    ensures r.Done? ==> |r.out| <= room
    ensures Inflate(input, p, out, room) == if r.Fail? || last then r else Inflate(input, r.pos, r.out, room)
  {
  }

  lemma {:induction false} BlockParts(bits: seq<bit>, p: nat, last: bool, b: D.Block, n: nat)
    requires D.IsBlock(b) && Holds(bits, p, D.BlockBits(last, b, p)) && n == p + |D.BlockBits(last, b, p)|
    ensures Holds(bits, p, D.HeadBits(last, b)) && Holds(bits, p + 3, D.DataBits(b, p + 3))
    ensures n == p + 3 + |D.DataBits(b, p + 3)|
  {
    HoldsSplit(bits, p, D.HeadBits(last, b), D.DataBits(b, p + 3));
  }

  lemma {:induction false} StreamParts(bits: seq<bit>, p: nat, n: nat, bs: seq<D.Block>, e: nat)
    requires D.AreBlocks(bs) && |bs| > 1 && Holds(bits, p, D.StreamBits(bs, p)) && e == p + |D.StreamBits(bs, p)|
    requires n == D.Behind(bs[0], p)
    ensures Holds(bits, p, D.BlockBits(false, bs[0], p))
    ensures Holds(bits, n, D.StreamBits(bs[1..], n)) && e == n + |D.StreamBits(bs[1..], n)|
  {
    var one, rest := D.BlockBits(false, bs[0], p), D.StreamBits(bs[1..], n);
    StreamIs(p, n, bs, one, rest);
    TwoParts(bits, p, n, one, rest, D.StreamBits(bs, p), e);
  }

  lemma {:induction false} StreamIs(p: nat, n: nat, bs: seq<D.Block>, one: seq<bit>, rest: seq<bit>)
    requires D.AreBlocks(bs) && |bs| > 1 && one == D.BlockBits(false, bs[0], p)
    requires n == D.Behind(bs[0], p) && rest == D.StreamBits(bs[1..], n)
    ensures D.StreamBits(bs, p) == one + rest
  {
  }

  /** One block, and what follows it. */
  lemma {:induction false} BlockInflates(input: seq<byte>, p: nat, last: bool, b: D.Block, out: seq<byte>, room: nat,
                                         n: nat, m: D.Meaning)
    requires D.IsBlock(b) && Holds(ToBits(input), p, D.BlockBits(last, b, p)) && n == p + |D.BlockBits(last, b, p)|
    requires |out| <= room && m == D.BlockMeaning(b, out, room)
    ensures m.err == D.OK ==> |m.out| <= room
    ensures Inflate(input, p, out, room) ==
            if m.err != D.OK || last then Result(m, n) else Inflate(input, n, m.out, room)
  {
    BlockParts(ToBits(input), p, last, b, n);
    HeadReads(ToBits(input), p, last, b);
    BlockReads(input, p + 3, b, out, room, n);
    InflateFrom(input, p, last, TypeOf(b), out, room, Result(m, n));
  }

  /** Blocks inflate to what they stand for, whatever comes behind them. */
  lemma {:induction false} StreamReads(input: seq<byte>, p: nat, bs: seq<D.Block>, out: seq<byte>, room: nat, e: nat)
    requires D.AreBlocks(bs) && |bs| > 0 && |out| <= room
    requires Holds(ToBits(input), p, D.StreamBits(bs, p)) && e == p + |D.StreamBits(bs, p)|
    ensures Inflate(input, p, out, room) == Result(D.StreamMeaning(bs, out, room), e)
    decreases |bs|
  {
    var m := D.BlockMeaning(bs[0], out, room);
    if |bs| == 1 {
      BlockInflates(input, p, true, bs[0], out, room, e, m);
    } else {
      var n := D.Behind(bs[0], p);
      StreamParts(ToBits(input), p, n, bs, e);
      BlockInflates(input, p, false, bs[0], out, room, n, m);
      if m.err == D.OK { StreamReads(input, n, bs[1..], m.out, room, e); }
    }
  }

  // ----- files -----

  lemma {:induction false} PackedBit(bits: seq<bit>, k: nat, j: nat)
    requires k + j < 8
    ensures Shr(D.PackFrom(bits, k), j) % 2 == D.BitOrZero(bits, k + j)
    decreases j
  {
    if j > 0 {
      PackedBit(bits, k + 1, j - 1);
      assert D.PackFrom(bits, k) / 2 == D.PackFrom(bits, k + 1);
      ShrStep(D.PackFrom(bits, k), j);
    }
  }

  lemma {:induction false} ShrStep(v: nat, j: nat)
    requires j > 0
    ensures Shr(v, j) == Shr(v / 2, j - 1)
  {
  }

  lemma {:induction false} PackedAt(bits: seq<bit>, p: nat)
    requires p < |bits|
    ensures ToBits(D.Pack(bits))[p] == bits[p]
    decreases |bits|
  {
    if |bits| <= 8 {
      PackedBit(bits, 0, p);
    } else if p < 8 {
      PackedBit(bits[..8], 0, p);
    } else {
      PackedAt(bits[8..], p - 8);
      BitsBehind(D.PackFrom(bits[..8], 0), D.Pack(bits[8..]), p - 8);
    }
  }

  lemma {:induction false} BitsBehind(b: byte, rest: seq<byte>, p: nat)
    requires p < 8 * |rest|
    ensures ToBits([b] + rest)[p + 8] == ToBits(rest)[p]
  {
    assert (p + 8) / 8 == p / 8 + 1 && (p + 8) % 8 == p % 8;
  }

  lemma {:induction false} Packed(bits: seq<bit>)
    ensures Holds(ToBits(D.Pack(bits)), 0, bits)
  {
    HoldsIs(ToBits(D.Pack(bits)), 0, bits);
    forall p | 0 <= p < |bits|
      ensures ToBits(D.Pack(bits))[p] == bits[p]
    {
      PackedAt(bits, p);
    }
  }

  /** The end of the compressed bits, for streams that decode. */
  function End(bs: seq<D.Block>): nat
    requires D.AreBlocks(bs)
  {
    |D.StreamBits(bs, 0)|
  }

  /**
   Every compressed file is decoded to what its blocks stand for: all the data with code 0, or the
   data in front of the first fault with the code of that fault.
   */
  lemma {:induction false} CompressInflates(bs: seq<D.Block>, room: nat)
    requires D.AreBlocks(bs) && |bs| > 0
    ensures Inflate(D.Compress(bs), 0, [], room) == Result(D.StreamMeaning(bs, [], room), End(bs))
  {
    Packed(D.StreamBits(bs, 0));
    StreamReads(D.Compress(bs), 0, bs, [], room, End(bs));
  }

  function Literals(data: seq<byte>): (ts: seq<D.Token>)
    ensures D.AreTokens(ts)
  {
    seq(|data|, i requires 0 <= i < |data| => D.Literal(data[i]))
  }

  lemma {:induction false} LiteralsExpand(data: seq<byte>, out: seq<byte>, room: nat)
    requires |out| + |data| <= room
    ensures D.Expand(Literals(data), out, room) == D.Meaning(D.OK, out + data)
    decreases |data|
  {
    if |data| == 0 {
      assert out + data == out;
    } else {
      assert Literals(data)[1..] == Literals(data[1..]);
      LiteralsExpand(data[1..], out + [data[0]], room);
      assert out + [data[0]] + data[1..] == out + data;
    }
  }

  /** Data that fits, written as one block with the fixed codes, inflates to itself. */
  lemma {:induction false} FixedRoundTrip(data: seq<byte>, room: nat)
    requires |data| <= room
    ensures var bs := [D.Fixed(Literals(data))];
            Inflate(D.Compress(bs), 0, [], room) == Done(End(bs), data)
  {
    var bs := [D.Fixed(Literals(data))];
    CompressInflates(bs, room);
    LiteralsExpand(data, [], room);
    assert D.StreamMeaning(bs, [], room) == D.Meaning(D.OK, data);
  }

  // One letter: three bits of header, its code of eight bits, the end-of-block code of seven.

  lemma {:induction false} LetterCode()
    ensures D.Huffman(0x91, 8) == [1, 0, 0, 1, 0, 0, 0, 1]
  {
    assert D.Huffman(0x9, 4) == [1, 0, 0, 1];
    assert D.Huffman(0x48, 7) == D.Huffman(0x24, 6) + [0];
    assert D.Huffman(0x24, 6) == D.Huffman(0x12, 5) + [0];
  }

  lemma {:induction false} EndCode()
    ensures D.Huffman(0, 7) == [0, 0, 0, 0, 0, 0, 0]
  {
    assert D.Huffman(0, 4) == [0, 0, 0, 0];
  }

  lemma {:induction false} LetterBits()
    ensures D.StreamBits([D.Fixed([D.Literal(0x61)])], 0) ==
            [1, 1, 0, 1, 0, 0, 1, 0, 0, 0, 1, 0, 0, 0, 0, 0, 0, 0]
  {
    LetterCode();
    EndCode();
    var ts := [D.Literal(0x61)];
    var lit, dist := D.FixedCodes(), D.FixedDistances();
    assert D.TokensBits(lit, dist, ts) == D.TokenBits(lit, dist, ts[0]) + D.TokensBits(lit, dist, []);
  }

  lemma {:induction false} EightBits(b: seq<bit>)
    requires |b| == 8
    ensures D.PackFrom(b, 0) == b[0] as int + 2 * b[1] as int + 4 * b[2] as int + 8 * b[3] as int + 16 * b[4] as int
                                + 32 * b[5] as int + 64 * b[6] as int + 128 * b[7] as int
  {
    var v := D.PackFrom(b, 4);
    assert v == b[4] as int + 2 * b[5] as int + 4 * b[6] as int + 8 * b[7] as int;
    assert D.PackFrom(b, 2) == b[2] as int + 2 * b[3] as int + 4 * v;
  }

  lemma {:induction false} NoMoreBits(b: seq<bit>, k: nat)
    requires |b| <= k <= 8
    ensures D.PackFrom(b, k) == 0
    decreases 8 - k
  {
    if k < 8 { NoMoreBits(b, k + 1); }
  }

  lemma {:induction false} ThreeBytes(s: seq<bit>)
    requires 16 < |s| <= 24
    ensures D.Pack(s) == [D.PackFrom(s[..8], 0), D.PackFrom(s[8..16], 0), D.PackFrom(s[16..], 0)]
  {
    assert s[8..][..8] == s[8..16] && s[8..][8..] == s[16..];
    assert D.Pack(s[8..]) == [D.PackFrom(s[8..16], 0)] + D.Pack(s[16..]);
  }

  /** The letter a is the file 4b 04 00. */
  lemma {:induction false} LetterFile()
    ensures D.Compress([D.Fixed([D.Literal(0x61)])]) == [0x4b, 0x04, 0x00]
  {
    LetterBits();
    LetterPacked();
  }

  lemma {:induction false} LetterBytes()
    ensures D.PackFrom([1, 1, 0, 1, 0, 0, 1, 0], 0) == 0x4b && D.PackFrom([0, 0, 1, 0, 0, 0, 0, 0], 0) == 0x04
    ensures D.PackFrom([0, 0], 0) == 0
  {
    EightBits([1, 1, 0, 1, 0, 0, 1, 0]);
    EightBits([0, 0, 1, 0, 0, 0, 0, 0]);
    NoMoreBits([0, 0], 2);
  }

  lemma {:induction false} LetterPacked()
    ensures D.Pack([1, 1, 0, 1, 0, 0, 1, 0, 0, 0, 1, 0, 0, 0, 0, 0, 0, 0]) == [0x4b, 0x04, 0x00]
  {
    var s: seq<bit> := [1, 1, 0, 1, 0, 0, 1, 0, 0, 0, 1, 0, 0, 0, 0, 0, 0, 0];
    ThreeBytes(s);
    assert s[..8] == [1, 1, 0, 1, 0, 0, 1, 0] && s[8..16] == [0, 0, 1, 0, 0, 0, 0, 0] && s[16..] == [0, 0];
    LetterBytes();
  }

  /** So does the decoder in executor/common_zlib.h. */
  method PuffCompressed(dest: array<byte>, bs: seq<D.Block>, fixed: P.FixedTables) returns (err: int, destlen: nat)
    requires D.AreBlocks(bs) && |bs| > 0
    requires forall i :: 0 <= i < dest.Length ==> dest[i] == 0
    requires fixed.Valid()
    requires fixed.lencode.count as object != dest && fixed.lencode.symbol as object != dest
    requires fixed.distcode.count as object != dest && fixed.distcode.symbol as object != dest
    modifies dest, fixed, fixed.lencode.count, fixed.lencode.symbol, fixed.distcode.count, fixed.distcode.symbol
    ensures fixed.Valid() && destlen <= dest.Length
    ensures D.Meaning(err, dest[..destlen]) == D.StreamMeaning(bs, [], dest.Length)
  {
    CompressInflates(bs, dest.Length);
    err, destlen := P.Puff(dest, D.Compress(bs), fixed);
  }
}
