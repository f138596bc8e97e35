/**
 The reference decoder inverts the encoder: whatever blocks are written, with whatever codes, literals
 and copies, inflating gives what they stand for, or the documented error.
 */
module DeflateRoundTrip {
  import opened Basics
  import opened Bits
  import opened Canonical
  import opened Rfc1951
  import D = Deflate

  // ----- reading numbers and codes -----

  /** The bits s stand at position p; to be looked into only where that is asked for. */
  ghost predicate Holds(bits: seq<bit>, p: nat, s: seq<bit>) {
    forall u: bool {:trigger Open(u)} :: Open(u) ==> p + |s| <= |bits| && bits[p..p + |s|] == s
  }

  lemma {:induction false} HoldsIs(bits: seq<bit>, p: nat, s: seq<bit>)
    ensures Holds(bits, p, s) <==> p + |s| <= |bits| && bits[p..p + |s|] == s
  {
    assert Open(true);
  }

  lemma {:induction false} HoldsSplit(bits: seq<bit>, p: nat, a: seq<bit>, b: seq<bit>)
    requires Holds(bits, p, a + b)
    ensures Holds(bits, p, a) && Holds(bits, p + |a|, b)
  {
    HoldsIs(bits, p, a + b);
    HoldsIs(bits, p, a);
    HoldsIs(bits, p + |a|, b);
    var n := |a + b|;
    assert bits[p..p + n][..|a|] == a && bits[p..p + n][|a|..] == b;
    assert bits[p..p + |a|] == bits[p..p + n][..|a|];
    assert bits[p + |a|..p + |a| + |b|] == bits[p..p + n][|a|..];
  }

  lemma {:induction false} NumberReads(bits: seq<bit>, p: nat, v: nat, n: nat)
    requires Holds(bits, p, D.Number(v, n)) && v < Pow2(n)
    ensures p + n <= |bits| && BitsAt(bits, p, n) == v
    decreases n
  {
    HoldsIs(bits, p, D.Number(v, n));
    if n > 0 {
      HoldsSplit(bits, p, [v % 2], D.Number(v / 2, n - 1));
      HoldsIs(bits, p, [v % 2]);
      assert bits[p] == bits[p..p + 1][0];
      NumberReads(bits, p + 1, v / 2, n - 1);
    }
  }

  lemma {:induction false} HuffmanReads(bits: seq<bit>, p: nat, c: nat, n: nat)
    requires Holds(bits, p, D.Huffman(c, n)) && c < Pow2(n)
    ensures p + n <= |bits| && CodeBits(bits, p, n) == c
    decreases n
  {
    HoldsIs(bits, p, D.Huffman(c, n));
    if n > 0 {
      HoldsSplit(bits, p, D.Huffman(c / 2, n - 1), [c % 2]);
      HoldsIs(bits, p + (n - 1), [c % 2]);
      assert bits[p + n - 1] == bits[p + (n - 1)..p + (n - 1) + 1][0];
      HuffmanReads(bits, p, c / 2, n - 1);
    }
  }

  /** Only a list that is not over-subscribed has room for all its codes. */
  lemma {:induction false} CodeFits(ls: Lengths, s: nat)
    requires KraftSum(ls) <= 0x8000 && s < |ls| && ls[s] >= 1
    ensures Code(ls, s) < Pow2(ls[s])
  {
    var l := ls[s];
    LeftIsKraft(ls);
    if Left(ls, l) < 0 { NegativeStays(ls, l, MAX_BITS); }
    LeftIsSpaceAboveCodes(ls, l);
    CountMono(ls, s, l);
  }

  /** A code that was written is the one that is found. */
  lemma {:induction false} SymbolReads(ls: Lengths, bits: seq<bit>, p: nat, s: nat)
    requires KraftSum(ls) <= 0x8000 && s < |ls| && ls[s] >= 1 && Holds(bits, p, D.BookOf(ls)(s))
    ensures NextSymbol(ls, bits, p) == Symbol(s) && |D.BookOf(ls)(s)| == ls[s]
  {
    CodeFits(ls, s);
    HuffmanReads(bits, p, Code(ls, s), ls[s]);
    FoundSymbol(ls, bits, p, s);
  }

  // ----- lengths and distances -----

  lemma {:induction false} SmallPowers()
    ensures Pow2(0) == 1 && Pow2(1) == 2 && Pow2(2) == 4 && Pow2(3) == 8 && Pow2(4) == 16 && Pow2(5) == 32
    ensures Pow2(6) == 64 && Pow2(7) == 128
  {
  }

  lemma {:induction false} LargePowers()
    ensures Pow2(8) == 256 && Pow2(9) == 512 && Pow2(10) == 1024 && Pow2(11) == 2048 && Pow2(12) == 4096
    ensures Pow2(13) == 8192
  {
    SmallPowers();
    assert Pow2(8) == 2 * Pow2(7);
    assert Pow2(9) == 2 * Pow2(8);
    assert Pow2(10) == 2 * Pow2(9);
    assert Pow2(11) == 2 * Pow2(10);
    assert Pow2(12) == 2 * Pow2(11);
  }

  /** The pieces of a length are read as that length. */
  predicate LengthIs(len: nat, c: D.Pieces) {
    && 257 <= c.sym < 286 && c.extra < Pow2(c.width)
    && LengthExtra(c.sym - 257) == c.width && LengthBase(c.sym - 257) + c.extra == len
  }

  predicate DistIs(d: nat, c: D.Pieces) {
    c.sym < 30 && c.extra < Pow2(c.width) && DistExtra(c.sym) == c.width && DistBase(c.sym) + c.extra == d
  }

  lemma {:induction false} ShortLengths(len: nat)
    requires 3 <= len <= 34
    ensures LengthIs(len, D.LengthPieces(len))
  {
    SmallPowers();
  }

  lemma {:induction false} MiddleLengths(len: nat)
    requires 35 <= len <= 130
    ensures LengthIs(len, D.LengthPieces(len))
  {
    SmallPowers();
  }

  lemma {:induction false} LongLengths(len: nat)
    requires 131 <= len <= 258
    ensures LengthIs(len, D.LengthPieces(len))
  {
    SmallPowers();
  }

  lemma {:induction false} NearDistances(d: nat)
    requires 1 <= d <= 64
    ensures DistIs(d, D.DistPieces(d))
  {
    SmallPowers();
    LargePowers();
  }

  lemma {:induction false} MiddleDistances(d: nat)
    requires 65 <= d <= 1024
    ensures DistIs(d, D.DistPieces(d))
  {
    SmallPowers();
    LargePowers();
  }

  lemma {:induction false} FarDistances(d: nat)
    requires 1025 <= d <= 8192
    ensures DistIs(d, D.DistPieces(d))
  {
    SmallPowers();
    LargePowers();
  }

  lemma {:induction false} FarthestDistances(d: nat)
    requires 8193 <= d <= 32768
    ensures DistIs(d, D.DistPieces(d))
  {
    SmallPowers();
    LargePowers();
  }

  lemma {:induction false} LengthFacts(len: nat)
    requires 3 <= len <= 258
    ensures LengthIs(len, D.LengthPieces(len))
  {
    if len <= 34 { ShortLengths(len); } else if len <= 130 { MiddleLengths(len); } else { LongLengths(len); }
  }

  lemma {:induction false} DistFacts(d: nat)
    requires 1 <= d <= 32768
    ensures DistIs(d, D.DistPieces(d))
  {
    if d <= 64 {
      NearDistances(d);
    } else if d <= 1024 {
      MiddleDistances(d);
    } else if d <= 8192 {
      FarDistances(d);
    } else {
      FarthestDistances(d);
    }
  }

  lemma {:induction false} DistReads(dist: Lengths, bits: seq<bit>, p: nat, d: nat, c: D.Pieces)
    requires KraftSum(dist) <= 0x8000 && |dist| <= 30 && DistIs(d, c) && c.sym < |dist| && dist[c.sym] >= 1
    requires Holds(bits, p, D.PiecesBits(D.BookOf(dist), c))
    ensures Distance(dist, bits, p) == Dist(d, p + |D.PiecesBits(D.BookOf(dist), c)|)
  {
    var code := D.BookOf(dist)(c.sym);
    HoldsSplit(bits, p, code, D.Number(c.extra, c.width));
    SymbolReads(dist, bits, p, c.sym);
    NumberReads(bits, p + |code|, c.extra, c.width);
  }

  /** Behind the length symbol: extra bits and the distance. */
  lemma {:induction false} PairReads(dist: Lengths, bits: seq<bit>, q: nat, len: nat, c: D.Pieces, d: nat, e: nat)
    requires |dist| <= 30 && LengthIs(len, c) && Holds(bits, q, D.Number(c.extra, c.width))
    requires Distance(dist, bits, q + c.width) == Dist(d, e)
    ensures LengthDistance(dist, bits, q, c.sym) == Copy(len, d, e)
  {
    NumberReads(bits, q, c.extra, c.width);
  }

  // ----- copies -----

  lemma {:induction false} RepeatedAt(out: seq<byte>, d: nat, len: nat, i: nat)
    requires 1 <= d <= |out| && i + 1 < len
    ensures D.Repeated(out, d, len)[i + 1] == D.Repeated(out + [out[|out| - d]], d, len - 1)[i]
  {
    TurnAround(i, d);
    var more := out + [out[|out| - d]];
    var k := |more| - d + i % d;
    if (i + 1) % d == 0 { assert k == |out|; } else { assert k == |out| - d + (i + 1) % d; }
  }

  lemma {:induction false} RepeatedNext(out: seq<byte>, d: nat, len: nat)
    requires 1 <= d <= |out| && len > 0
    ensures D.Repeated(out, d, len) == [out[|out| - d]] + D.Repeated(out + [out[|out| - d]], d, len - 1)
  {
    var r, s := D.Repeated(out, d, len), D.Repeated(out + [out[|out| - d]], d, len - 1);
    forall i | 0 <= i < |r| ensures r[i] == ([out[|out| - d]] + s)[i] {
      if i > 0 { RepeatedAt(out, d, len, i - 1); }
    }
  }

  lemma {:induction false} TurnAround(i: nat, d: nat)
    requires d > 0
    ensures (i + 1) % d == if i % d == d - 1 then 0 else i % d + 1
  {
    var q, r := i / d, i % d;
    assert i == r + d * q;
    if r == d - 1 {
      assert i + 1 == 0 + d * (q + 1);
      DivModUnique(i + 1, q + 1, 0, d);
    } else {
      DivModUnique(i + 1, q, r + 1, d);
    }
  }

  /** Copying byte by byte repeats the last d bytes. */
  lemma {:induction false} CopyRepeats(out: seq<byte>, d: nat, len: nat)
    requires 1 <= d <= |out|
    ensures CopyBack(out, d, len) == out + D.Repeated(out, d, len)
    decreases len
  {
    if len == 0 {
      assert out + D.Repeated(out, d, 0) == out;
    } else {
      var c := out[|out| - d];
      CopyRepeats(out + [c], d, len - 1);
      RepeatedNext(out, d, len);
      assert (out + [c]) + D.Repeated(out + [c], d, len - 1) == out + ([c] + D.Repeated(out + [c], d, len - 1));
    }
  }

  // ----- tokens -----

  function Result(m: D.Meaning, pos: nat): Outcome {
    if m.err == D.OK then Done(pos, m.out) else Fail(m.err, m.out)
  }

  lemma {:induction false} LiteralStep(lit: Lengths, dist: Lengths, bits: seq<bit>, p: nat, b: byte, out: seq<byte>,
                                       room: nat)
    requires KraftSum(lit) <= 0x8000 && |dist| <= 30 && |out| <= room
    requires (b as int) < |lit| && lit[b] >= 1 && Holds(bits, p, D.BookOf(lit)(b as int))
    ensures CodesStep(lit, dist, bits, p, out, room) ==
            if |out| >= room then Stop(Fail(1, out)) else Continue(p + |D.BookOf(lit)(b as int)|, out + [b])
  {
    SymbolReads(lit, bits, p, b as int);
  }

  lemma {:induction false} CopyOrStop(len: nat, d: nat, e: nat, out: seq<byte>, room: nat)
    requires |out| <= room && d >= 1
    ensures CopyStep(Copy(len, d, e), out, room) ==
            if d > |out| then Stop(Fail(-11, out))
            else if |out| + len > room then Stop(Fail(1, out))
            else Continue(e, out + D.Repeated(out, d, len))
  {
    if d <= |out| { CopyRepeats(out, d, len); }
  }

  /** A length symbol at p, and a copy behind it. */
  lemma {:induction false} MatchParts(lit: Lengths, dist: Lengths, bits: seq<bit>, p: nat, sym: nat, c: CopyCode,
                                      out: seq<byte>, room: nat)
    requires |dist| <= 30 && |out| <= room && 256 < sym < |lit| && NextSymbol(lit, bits, p) == Symbol(sym)
    requires LengthDistance(dist, bits, p + lit[sym], sym) == c
    ensures CodesStep(lit, dist, bits, p, out, room) == CopyStep(c, out, room)
  {
  }

  lemma {:induction false} MatchReads(lit: Lengths, dist: Lengths, bits: seq<bit>, p: nat, q: nat, r: nat, d: nat,
                                      a: D.Pieces, b: D.Pieces, e: nat)
    requires KraftSum(lit) <= 0x8000 && KraftSum(dist) <= 0x8000 && |dist| <= 30
    requires a.sym < |lit| && lit[a.sym] >= 1 && DistIs(d, b) && b.sym < |dist| && dist[b.sym] >= 1
    requires Holds(bits, p, D.BookOf(lit)(a.sym)) && Holds(bits, q, D.Number(a.extra, a.width))
    requires Holds(bits, r, D.PiecesBits(D.BookOf(dist), b)) && e == r + |D.PiecesBits(D.BookOf(dist), b)|
    requires q == p + lit[a.sym] && r == q + a.width
    ensures CopyAt(lit, dist, bits, p, q, r, e, d, a)
  {
    SymbolReads(lit, bits, p, a.sym);
    DistReads(dist, bits, r, d, b);
  }

  /** Where the parts of a copy stand: the symbol at p, its extra bits at q, the distance at r, the end at e. */
  ghost predicate CopyAt(lit: Lengths, dist: Lengths, bits: seq<bit>, p: nat, q: nat, r: nat, e: nat, d: nat,
                         a: D.Pieces) {
    && |dist| <= 30 && a.sym < |lit| && NextSymbol(lit, bits, p) == Symbol(a.sym) && q == p + lit[a.sym]
    && Holds(bits, q, D.Number(a.extra, a.width)) && r == q + a.width && Distance(dist, bits, r) == Dist(d, e)
  }

  lemma {:induction false} MatchStep(lit: Lengths, dist: Lengths, bits: seq<bit>, p: nat, len: nat, d: nat, a: D.Pieces,
                                     b: D.Pieces, out: seq<byte>, room: nat, e: nat)
    requires KraftSum(lit) <= 0x8000 && KraftSum(dist) <= 0x8000 && |dist| <= 30 && |out| <= room
    requires LengthIs(len, a) && a.sym < |lit| && lit[a.sym] >= 1 && DistIs(d, b) && b.sym < |dist| && dist[b.sym] >= 1
    requires Holds(bits, p, D.PiecesBits(D.BookOf(lit), a) + D.PiecesBits(D.BookOf(dist), b))
    requires e == p + |D.PiecesBits(D.BookOf(lit), a) + D.PiecesBits(D.BookOf(dist), b)|
    ensures CodesStep(lit, dist, bits, p, out, room) == CopyStep(Copy(len, d, e), out, room)
  {
    var q := p + lit[a.sym];
    var r := q + a.width;
    PiecesSplit(lit, bits, p, q, r, a, D.PiecesBits(D.BookOf(dist), b), e);
    MatchReads(lit, dist, bits, p, q, r, d, a, b, e);
    MatchJoins(lit, dist, bits, p, q, r, len, d, a, out, room, e);
  }

  lemma {:induction false} PiecesSplit(lit: Lengths, bits: seq<bit>, p: nat, q: nat, r: nat, a: D.Pieces,
                                       rest: seq<bit>, e: nat)
    requires a.sym < |lit| && lit[a.sym] >= 1 && Holds(bits, p, D.PiecesBits(D.BookOf(lit), a) + rest)
    requires e == p + |D.PiecesBits(D.BookOf(lit), a) + rest| && q == p + lit[a.sym] && r == q + a.width
    ensures Holds(bits, p, D.BookOf(lit)(a.sym)) && Holds(bits, q, D.Number(a.extra, a.width))
    ensures Holds(bits, r, rest) && e == r + |rest|
  {
    MatchSplits(bits, p, D.BookOf(lit)(a.sym), D.Number(a.extra, a.width), rest, q, r, e);
  }

  lemma {:induction false} MatchJoins(lit: Lengths, dist: Lengths, bits: seq<bit>, p: nat, q: nat, r: nat, len: nat,
                                      d: nat, a: D.Pieces, out: seq<byte>, room: nat, e: nat)
    requires |out| <= room && LengthIs(len, a) && CopyAt(lit, dist, bits, p, q, r, e, d, a)
    ensures CodesStep(lit, dist, bits, p, out, room) == CopyStep(Copy(len, d, e), out, room)
  {
    PairReads(dist, bits, q, len, a, d, e);
    MatchParts(lit, dist, bits, p, a.sym, Copy(len, d, e), out, room);
  }

  lemma {:induction false} MatchSplits(bits: seq<bit>, p: nat, a: seq<bit>, b: seq<bit>, c: seq<bit>, q: nat, r: nat,
                                       e: nat)
    requires Holds(bits, p, (a + b) + c) && q == p + |a| && r == q + |b| && e == p + |(a + b) + c|
    ensures Holds(bits, p, a) && Holds(bits, q, b) && Holds(bits, r, c) && e == r + |c|
  {
    HoldsSplit(bits, p, a + b, c);
    HoldsSplit(bits, p, a, b);
  }

  lemma {:induction false} EndStep(lit: Lengths, dist: Lengths, bits: seq<bit>, p: nat, out: seq<byte>, room: nat)
    requires KraftSum(lit) <= 0x8000 && |dist| <= 30 && |out| <= room
    requires 256 < |lit| && lit[256] >= 1 && Holds(bits, p, D.BookOf(lit)(256))
    ensures CodesStep(lit, dist, bits, p, out, room) == Stop(Done(p + |D.BookOf(lit)(256)|, out))
  {
    SymbolReads(lit, bits, p, 256);
  }

  /** One token, in front of others. */
  lemma {:induction false} TokenStep(lit: Lengths, dist: Lengths, bits: seq<bit>, p: nat, t: D.Token, out: seq<byte>,
                                     room: nat, e: nat)
    requires KraftSum(lit) <= 0x8000 && KraftSum(dist) <= 0x8000 && |dist| <= 30 && |out| <= room
    requires D.IsToken(t) && D.CodedToken(lit, dist, t) && Holds(bits, p, D.TokenBits(D.BookOf(lit), D.BookOf(dist), t))
    requires e == p + |D.TokenBits(D.BookOf(lit), D.BookOf(dist), t)|
    ensures CodesStep(lit, dist, bits, p, out, room) == TokenResult(t, out, room, e)
  {
    match t {
      case Literal(b) => LiteralStep(lit, dist, bits, p, b, out, room);
      case Match(len, d) =>
        LengthFacts(len);
        DistFacts(d);
        MatchStep(lit, dist, bits, p, len, d, D.LengthPieces(len), D.DistPieces(d), out, room, e);
        CopyOrStop(len, d, e, out, room);
    }
  }

  function TokenResult(t: D.Token, out: seq<byte>, room: nat, e: nat): Step
    requires D.IsToken(t)
  {
    match t
    case Literal(b) => if |out| >= room then Stop(Fail(1, out)) else Continue(e, out + [b])
    case Match(len, d) =>
      if d > |out| then Stop(Fail(-11, out))
      else if |out| + len > room then Stop(Fail(1, out))
      else Continue(e, out + D.Repeated(out, d, len))
  }

  /** Decoding from p gives what the tokens stand for, and ends at e. */
  ghost predicate Decodes(lit: Lengths, dist: Lengths, bits: seq<bit>, p: nat, ts: seq<D.Token>, out: seq<byte>,
                          room: nat, e: nat)
    requires D.AreTokens(ts) && |out| <= room && |dist| <= 30
  {
    forall u: bool {:trigger Open(u)} :: Open(u) ==>
      Codes(lit, dist, bits, p, out, room) == Result(D.Expand(ts, out, room), e)
  }

  lemma {:induction false} DecodesEnd(lit: Lengths, dist: Lengths, bits: seq<bit>, p: nat, out: seq<byte>, room: nat,
                                      e: nat)
    requires |out| <= room && |dist| <= 30 && CodesStep(lit, dist, bits, p, out, room) == Stop(Done(e, out))
    ensures Decodes(lit, dist, bits, p, [], out, room, e)
  {
  }

  lemma {:induction false} DecodesStop(lit: Lengths, dist: Lengths, bits: seq<bit>, p: nat, ts: seq<D.Token>,
                                       out: seq<byte>, room: nat, e: nat, q: nat)
    requires |out| <= room && |dist| <= 30 && |ts| > 0 && D.AreTokens(ts)
    requires CodesStep(lit, dist, bits, p, out, room) == TokenResult(ts[0], out, room, q)
    requires TokenResult(ts[0], out, room, q).Stop?
    ensures Decodes(lit, dist, bits, p, ts, out, room, e)
  {
  }

  lemma {:induction false} DecodesNext(lit: Lengths, dist: Lengths, bits: seq<bit>, p: nat, ts: seq<D.Token>,
                                       out: seq<byte>, room: nat, e: nat, q: nat, out': seq<byte>)
    requires |out| <= room && |out'| <= room && |dist| <= 30 && |ts| > 0 && D.AreTokens(ts)
    requires CodesStep(lit, dist, bits, p, out, room) == TokenResult(ts[0], out, room, q) == Continue(q, out')
    requires Decodes(lit, dist, bits, q, ts[1..], out', room, e)
    ensures Decodes(lit, dist, bits, p, ts, out, room, e)
  {
    assert Open(true);
    ExpandNext(ts, out, room, q, out');
    CodesNext(lit, dist, bits, p, out, room, q, out');
  }

  lemma {:induction false} ExpandNext(ts: seq<D.Token>, out: seq<byte>, room: nat, q: nat, out': seq<byte>)
    requires |ts| > 0 && D.AreTokens(ts) && TokenResult(ts[0], out, room, q) == Continue(q, out')
    ensures D.Expand(ts, out, room) == D.Expand(ts[1..], out', room)
  {
  }

  lemma {:induction false} CodesNext(lit: Lengths, dist: Lengths, bits: seq<bit>, p: nat, out: seq<byte>, room: nat,
                                     q: nat, out': seq<byte>)
    requires |out| <= room && |out'| <= room && |dist| <= 30
    requires CodesStep(lit, dist, bits, p, out, room) == Continue(q, out')
    ensures Codes(lit, dist, bits, p, out, room) == Codes(lit, dist, bits, q, out', room)
  {
  }

  lemma {:induction false} MoreCoded(lit: seq<nat>, dist: seq<nat>, ts: seq<D.Token>)
    requires |ts| > 0 && D.AreTokens(ts) && D.Coded(lit, dist, ts)
    ensures D.CodedToken(lit, dist, ts[0]) && D.AreTokens(ts[1..]) && D.Coded(lit, dist, ts[1..])
  {
  }

  lemma {:induction false} FirstToken(bits: seq<bit>, p: nat, l: D.Book, d: D.Book, ts: seq<D.Token>, e: nat, q: nat)
    requires |ts| > 0 && D.AreTokens(ts) && Holds(bits, p, D.TokensBits(l, d, ts)) && e == p + |D.TokensBits(l, d, ts)|
    requires q == p + |D.TokenBits(l, d, ts[0])|
    ensures Holds(bits, p, D.TokenBits(l, d, ts[0])) && Holds(bits, q, D.TokensBits(l, d, ts[1..]))
    ensures e == q + |D.TokensBits(l, d, ts[1..])|
  {
    HoldsSplit(bits, p, D.TokenBits(l, d, ts[0]), D.TokensBits(l, d, ts[1..]));
  }

  /** Tokens written in any two codes are decoded to what they stand for. */
  lemma {:induction false} TokensRead(lit: Lengths, dist: Lengths, bits: seq<bit>, p: nat, ts: seq<D.Token>,
                                      out: seq<byte>, room: nat, e: nat)
    requires KraftSum(lit) <= 0x8000 && KraftSum(dist) <= 0x8000 && |dist| <= 30 && |out| <= room
    requires D.AreTokens(ts) && D.Coded(lit, dist, ts)
    requires Holds(bits, p, D.TokensBits(D.BookOf(lit), D.BookOf(dist), ts))
    requires e == p + |D.TokensBits(D.BookOf(lit), D.BookOf(dist), ts)|
    ensures Decodes(lit, dist, bits, p, ts, out, room, e)
    decreases |ts|
  {
    if |ts| == 0 {
      EndStep(lit, dist, bits, p, out, room);
      DecodesEnd(lit, dist, bits, p, out, room, e);
    } else {
      var q := p + |D.TokenBits(D.BookOf(lit), D.BookOf(dist), ts[0])|;
      FirstToken(bits, p, D.BookOf(lit), D.BookOf(dist), ts, e, q);
      MoreCoded(lit, dist, ts);
      TokenStep(lit, dist, bits, p, ts[0], out, room, q);
      match TokenResult(ts[0], out, room, q) {
        case Stop(_) => DecodesStop(lit, dist, bits, p, ts, out, room, e, q);
        case Continue(_, out') =>
          TokensRead(lit, dist, bits, q, ts[1..], out', room, e);
          DecodesNext(lit, dist, bits, p, ts, out, room, e, q, out');
      }
    }
  }
}
