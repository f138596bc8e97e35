/**
 An encoder for DEFLATE, written from the tables and bit strings of sections 3.2.3 to 3.2.7 of
 RFC 1951, and what the encoded data stands for: literals, copies, runs and blocks.
 Nothing here looks at a bit stream that is given; decoding is in Rfc1951.
 */
module Deflate {
  import opened Bits
  import opened Canonical

  // ----- bits (section 3.1.1) -----

  /** A number of n bits, least significant bit first. */
  function Number(v: nat, n: nat): (r: seq<bit>)
    ensures |r| == n
  {
    if n == 0 then [] else [v % 2] + Number(v / 2, n - 1)
  }

  /** A Huffman code of n bits, most significant bit first. */
  function Huffman(code: nat, n: nat): (r: seq<bit>)
    ensures |r| == n
  {
    if n == 0 then [] else Huffman(code / 2, n - 1) + [code % 2]
  }

  /** How a code writes its symbols. */
  type Book = nat -> seq<bit>

  /** The codes that a list of code lengths stands for (section 3.2.2). */
  function BookOf(ls: seq<nat>): Book {
    (s: nat) => if s < |ls| && ls[s] >= 1 then Huffman(Code(ls, s), ls[s]) else []
  }

  /** The literal and length codes of section 3.2.6. */
  function FixedCodes(): Book {
    (s: nat) =>
      if s < 144 then Huffman(0x30 + s, 8)
      else if s < 256 then Huffman(0x190 + (s - 144), 9)
      else if s < 280 then Huffman(s - 256, 7)
      else Huffman(0xc0 + (s - 280), 8)
  }

  function FixedDistances(): Book { (s: nat) => Huffman(s, 5) }

  // ----- literals and copies (section 3.2.5) -----

  datatype Token = Literal(b: byte) | Match(len: nat, dist: nat)

  predicate IsToken(t: Token) { t.Match? ==> 3 <= t.len <= 258 && 1 <= t.dist <= 32768 }

  /** A symbol, and a number in the extra bits behind it. */
  datatype Pieces = Pieces(sym: nat, extra: nat, width: nat)

  /** The rows of the table of lengths, one for each number of extra bits. */
  function LengthPieces(len: nat): Pieces
    requires 3 <= len <= 258
  {
    if len <= 10 then Pieces(257 + (len - 3), 0, 0)
    else if len <= 18 then Pieces(265 + (len - 11) / 2, (len - 11) % 2, 1)
    else if len <= 34 then Pieces(269 + (len - 19) / 4, (len - 19) % 4, 2)
    else if len <= 66 then Pieces(273 + (len - 35) / 8, (len - 35) % 8, 3)
    else if len <= 130 then Pieces(277 + (len - 67) / 16, (len - 67) % 16, 4)
    else if len <= 257 then Pieces(281 + (len - 131) / 32, (len - 131) % 32, 5)
    else Pieces(285, 0, 0)
  }

  /** The rows of the table of distances. */
  function DistPieces(d: nat): Pieces
    requires 1 <= d <= 32768
  {
    if d <= 4 then Pieces(d - 1, 0, 0)
    else if d <= 8 then Pieces(4 + (d - 5) / 2, (d - 5) % 2, 1)
    else if d <= 16 then Pieces(6 + (d - 9) / 4, (d - 9) % 4, 2)
    else if d <= 32 then Pieces(8 + (d - 17) / 8, (d - 17) % 8, 3)
    else if d <= 64 then Pieces(10 + (d - 33) / 16, (d - 33) % 16, 4)
    else if d <= 128 then Pieces(12 + (d - 65) / 32, (d - 65) % 32, 5)
    else if d <= 256 then Pieces(14 + (d - 129) / 64, (d - 129) % 64, 6)
    else if d <= 512 then Pieces(16 + (d - 257) / 128, (d - 257) % 128, 7)
    else if d <= 1024 then Pieces(18 + (d - 513) / 256, (d - 513) % 256, 8)
    else if d <= 2048 then Pieces(20 + (d - 1025) / 512, (d - 1025) % 512, 9)
    else if d <= 4096 then Pieces(22 + (d - 2049) / 1024, (d - 2049) % 1024, 10)
    else if d <= 8192 then Pieces(24 + (d - 4097) / 2048, (d - 4097) % 2048, 11)
    else if d <= 16384 then Pieces(26 + (d - 8193) / 4096, (d - 8193) % 4096, 12)
    else Pieces(28 + (d - 16385) / 8192, (d - 16385) % 8192, 13)
  }

  function PiecesBits(book: Book, c: Pieces): seq<bit> { book(c.sym) + Number(c.extra, c.width) }

  function TokenBits(lit: Book, dist: Book, t: Token): seq<bit>
    requires IsToken(t)
  {
    match t
    case Literal(b) => lit(b as int)
    case Match(len, d) => PiecesBits(lit, LengthPieces(len)) + PiecesBits(dist, DistPieces(d))
  }

  predicate AreTokens(ts: seq<Token>) { forall i :: 0 <= i < |ts| ==> IsToken(ts[i]) }

  /** Tokens, and the end-of-block symbol behind them. */
  function TokensBits(lit: Book, dist: Book, ts: seq<Token>): seq<bit>
    requires AreTokens(ts)
  {
    if |ts| == 0 then lit(256) else TokenBits(lit, dist, ts[0]) + TokensBits(lit, dist, ts[1..])
  }

  /** len bytes that repeat the last d bytes of out. */
  function Repeated(out: seq<byte>, d: nat, len: nat): (r: seq<byte>)
    requires 1 <= d <= |out|
    ensures |r| == len
  {
    seq(len, i requires 0 <= i < len => out[|out| - d + i % d])
  }

  /** What data stands for: the bytes, or the documented error with the bytes up to it. */
  datatype Meaning = Meaning(err: int, out: seq<byte>)

  const OK := 0
  const NO_ROOM := 1
  const TOO_FAR := -11

  function Expand(ts: seq<Token>, out: seq<byte>, room: nat): Meaning
    requires AreTokens(ts)
  {
    if |ts| == 0 then Meaning(OK, out)
    else
      match ts[0]
      case Literal(b) => if |out| >= room then Meaning(NO_ROOM, out) else Expand(ts[1..], out + [b], room)
      case Match(len, d) =>
        if d > |out| then Meaning(TOO_FAR, out)
        else if |out| + len > room then Meaning(NO_ROOM, out)
        else Expand(ts[1..], out + Repeated(out, d, len), room)
  }

  // ----- code lengths (section 3.2.7) -----

  /** A length, a length that goes on, or zeros. */
  datatype Run = One(l: nat) | Again(n: nat) | Zeros(n: nat)

  predicate IsRun(r: Run) {
    match r
    case One(l) => l <= 15
    case Again(n) => 3 <= n <= 6
    case Zeros(n) => 3 <= n <= 138
  }

  predicate AreRuns(rs: seq<Run>) { forall i :: 0 <= i < |rs| ==> IsRun(rs[i]) }

  function RunSymbol(r: Run): (s: nat)
    requires IsRun(r)
    ensures s < 19
  {
    match r
    case One(l) => l
    case Again(_) => 16
    case Zeros(n) => if n <= 10 then 17 else 18
  }

  function RunExtra(r: Run): seq<bit>
    requires IsRun(r)
  {
    match r
    case One(_) => []
    case Again(n) => Number(n - 3, 2)
    case Zeros(n) => if n <= 10 then Number(n - 3, 3) else Number(n - 11, 7)
  }

  function RunsBits(book: Book, rs: seq<Run>): seq<bit>
    requires AreRuns(rs)
  {
    if |rs| == 0 then [] else book(RunSymbol(rs[0])) + RunExtra(rs[0]) + RunsBits(book, rs[1..])
  }

  function Times(x: nat, n: nat): (r: seq<nat>)
    ensures |r| == n
  {
    if n == 0 then [] else [x] + Times(x, n - 1)
  }

  /** The lengths that runs stand for: all of them, or what is wrong. */
  datatype Unrolled = Whole(ls: seq<nat>) | NoFirst | TooMany | Uneven

  function Unroll(rs: seq<Run>, acc: seq<nat>, total: nat): Unrolled {
    if |acc| >= total then if |rs| == 0 && |acc| == total then Whole(acc) else Uneven
    else if |rs| == 0 then Uneven
    else
      match rs[0]
      case One(l) => Unroll(rs[1..], acc + [l], total)
      case Again(n) =>
        if |acc| == 0 then NoFirst
        else if |acc| + n > total then TooMany
        else Unroll(rs[1..], acc + Times(acc[|acc| - 1], n), total)
      case Zeros(n) => if |acc| + n > total then TooMany else Unroll(rs[1..], acc + Times(0, n), total)
  }

  /** Whose length is sent i-th. */
  function SendOrder(i: nat): (s: nat)
    requires i < 19
    ensures s < 19
  {
    [16, 17, 18, 0, 8, 7, 9, 6, 10, 5, 11, 4, 12, 3, 13, 2, 14, 1, 15][i]
  }

  /** nlen literal and length codes, ndist distance codes, the lengths of the code length code, and runs. */
  datatype Codes = Codes(nlen: nat, ndist: nat, ncode: nat, cl: seq<nat>, runs: seq<Run>)

  predicate AreCodes(c: Codes) {
    && 257 <= c.nlen <= 288 && 1 <= c.ndist <= 32 && 4 <= c.ncode <= 19 && |c.cl| == 19 && AreRuns(c.runs)
    && (forall s :: 0 <= s < 19 ==> c.cl[s] <= 7)
    && NotSent(c.cl, c.ncode)
  }

  /** From the i-th in sending order on, all lengths are zero. */
  predicate NotSent(cl: seq<nat>, i: nat)
    requires |cl| == 19 && i <= 19
    decreases 19 - i
  {
    i == 19 || (cl[SendOrder(i)] == 0 && NotSent(cl, i + 1))
  }

  /** The lengths in sending order from the i-th on. */
  function SentBits(cl: seq<nat>, i: nat, n: nat): seq<bit>
    requires |cl| == 19 && i <= n <= 19
    decreases n - i
  {
    if i == n then [] else Number(cl[SendOrder(i)], 3) + SentBits(cl, i + 1, n)
  }

  /** HLIT, HDIST and HCLEN. */
  function CountsBits(nlen: nat, ndist: nat, ncode: nat): (r: seq<bit>)
    requires 257 <= nlen && 1 <= ndist && 4 <= ncode
    ensures |r| == 14
  {
    Number(nlen - 257, 5) + Number(ndist - 1, 5) + Number(ncode - 4, 4)
  }

  function CodesBits(c: Codes): seq<bit>
    requires AreCodes(c)
  {
    CountsBits(c.nlen, c.ndist, c.ncode) + SentBits(c.cl, 0, c.ncode) + RunsBits(BookOf(c.cl), c.runs)
  }

  /** More codes than fit, or bits that no code begins with although some code is longer than one bit. */
  predicate Refused(ls: Lengths) {
    KraftSum(ls) > 0x8000 || (KraftSum(ls) < 0x8000 && exists i :: 0 <= i < |ls| && ls[i] >= 2)
  }

  /** The lengths that the runs stand for, those of both codes together. */
  function SentLengths(c: Codes): Unrolled
    requires AreRuns(c.runs)
  {
    Unroll(c.runs, [], c.nlen + c.ndist)
  }

  /** 0, or the documented error for the codes of a dynamic block. */
  function CodesError(c: Codes): int
    requires AreCodes(c)
  {
    if c.nlen > 286 || c.ndist > 30 then -3
    else if KraftSum(c.cl) != 0x8000 && exists i :: 0 <= i < 19 && c.cl[i] > 0 then -4
    else
      match SentLengths(c)
      case NoFirst => -5
      case TooMany => -6
      case Uneven => 0
      case Whole(ls) => LengthsError(ls, c.nlen)
  }

  function LengthsError(ls: seq<nat>, nlen: nat): int {
    if !AreLengths(ls) || nlen > |ls| || nlen <= 256 then 0
    else if ls[256] == 0 then -9
    else if Refused(ls[..nlen]) then -7
    else if Refused(ls[nlen..]) then -8
    else 0
  }

  predicate AreLengths(ls: seq<nat>) { forall i :: 0 <= i < |ls| ==> ls[i] <= 15 }

  // ----- blocks (sections 3.2.3, 3.2.4) -----

  datatype Block =
    | Plain(data: seq<byte>, check: nat)
    | Fixed(ts: seq<Token>)
    | Dynamic(codes: Codes, ts: seq<Token>)
    | Reserved

  function BytesBits(data: seq<byte>): (r: seq<bit>)
    ensures |r| == 8 * |data|
  {
    if |data| == 0 then [] else Number(data[0] as int, 8) + BytesBits(data[1..])
  }

  function Padding(p: nat): (r: seq<bit>)
    ensures |r| < 8 && (p + |r|) % 8 == 0
  {
    if p % 8 == 0 then [] else Number(0, 8 - p % 8)
  }

  /** The symbols that tokens need have codes. */
  predicate Coded(lit: seq<nat>, dist: seq<nat>, ts: seq<Token>)
    requires AreTokens(ts)
  {
    256 < |lit| && lit[256] >= 1 && forall i :: 0 <= i < |ts| ==> CodedToken(lit, dist, ts[i])
  }

  predicate CodedToken(lit: seq<nat>, dist: seq<nat>, t: Token)
    requires IsToken(t)
  {
    match t
    case Literal(b) => (b as int) < |lit| && lit[b] >= 1
    case Match(len, d) =>
      && LengthPieces(len).sym < |lit| && lit[LengthPieces(len).sym] >= 1
      && DistPieces(d).sym < |dist| && dist[DistPieces(d).sym] >= 1
  }

  predicate CodedBy(u: Unrolled, nlen: nat, ts: seq<Token>)
    requires AreTokens(ts)
  {
    u.Whole? && nlen <= |u.ls| && Coded(u.ls[..nlen], u.ls[nlen..], ts)
  }

  predicate CodedRuns(cl: seq<nat>, rs: seq<Run>)
    requires |cl| == 19 && AreRuns(rs)
  {
    forall i :: 0 <= i < |rs| ==> cl[RunSymbol(rs[i])] >= 1
  }

  predicate IsBlock(b: Block) {
    match b
    case Plain(data, check) => |data| <= 0xffff && check <= 0xffff
    case Fixed(ts) => AreTokens(ts)
    case Dynamic(c, ts) =>
      && AreCodes(c) && AreTokens(ts) && CodedRuns(c.cl, c.runs) && !SentLengths(c).Uneven?
      && (CodesError(c) == 0 ==> CodedBy(SentLengths(c), c.nlen, ts))
    case Reserved => true
  }

  /** The data of a block whose data begins at bit p. */
  function DataBits(b: Block, p: nat): seq<bit>
    requires IsBlock(b)
  {
    match b
    case Plain(data, check) => Padding(p) + Number(|data|, 16) + Number(check, 16) + BytesBits(data)
    case Fixed(ts) => TokensBits(FixedCodes(), FixedDistances(), ts)
    case Dynamic(c, ts) => CodesBits(c) + CodedBits(SentLengths(c), c.nlen, ts)
    case Reserved => []
  }

  /** Tokens in the codes that a dynamic block sends. */
  function CodedBits(u: Unrolled, nlen: nat, ts: seq<Token>): seq<bit>
    requires AreTokens(ts)
  {
    if u.Whole? && nlen <= |u.ls| then TokensBits(BookOf(u.ls[..nlen]), BookOf(u.ls[nlen..]), ts) else []
  }

  predicate AreBlocks(bs: seq<Block>) { forall i :: 0 <= i < |bs| ==> IsBlock(bs[i]) }

  /** Whether the block is the last one, then its type: 00, 01, 10 or 11, low bit first. */
  function HeadBits(last: bool, b: Block): (r: seq<bit>)
    ensures |r| == 3
  {
    var l := if last then 1 else 0;
    match b
    case Plain(_, _) => [l, 0, 0]
    case Fixed(_) => [l, 1, 0]
    case Dynamic(_, _) => [l, 0, 1]
    case Reserved => [l, 1, 1]
  }

  function BlockBits(last: bool, b: Block, p: nat): seq<bit>
    requires IsBlock(b)
  {
    HeadBits(last, b) + DataBits(b, p + 3)
  }

  /** Where the next block begins. */
  function Behind(b: Block, p: nat): nat
    requires IsBlock(b)
  {
    p + |BlockBits(false, b, p)|
  }

  /** Blocks that begin at bit p, the last one marked. */
  function StreamBits(bs: seq<Block>, p: nat): seq<bit>
    requires AreBlocks(bs)
    decreases |bs|
  {
    if |bs| == 0 then []
    else if |bs| == 1 then BlockBits(true, bs[0], p)
    else BlockBits(false, bs[0], p) + StreamBits(bs[1..], Behind(bs[0], p))
  }

  function BlockMeaning(b: Block, out: seq<byte>, room: nat): Meaning
    requires IsBlock(b)
  {
    match b
    case Plain(data, check) =>
      if |data| + check != 0xffff then Meaning(-2, out)
      else if |out| + |data| > room then Meaning(NO_ROOM, out)
      else Meaning(OK, out + data)
    case Fixed(ts) => Expand(ts, out, room)
    case Dynamic(c, ts) => if CodesError(c) != 0 then Meaning(CodesError(c), out) else Expand(ts, out, room)
    case Reserved => Meaning(-1, out)
  }

  function StreamMeaning(bs: seq<Block>, out: seq<byte>, room: nat): Meaning
    requires AreBlocks(bs)
  {
    if |bs| == 0 then Meaning(OK, out)
    else
      var m := BlockMeaning(bs[0], out, room);
      if m.err != OK then m else StreamMeaning(bs[1..], m.out, room)
  }

  /** Bits packed into bytes from the low end; the last byte is filled up with zeros. */
  function Pack(bits: seq<bit>): (r: seq<byte>)
    ensures |bits| <= 8 * |r| < |bits| + 8
  {
    assert Pow2(8) == 256;
    if |bits| == 0 then []
    else if |bits| <= 8 then [PackFrom(bits, 0)]
    else [PackFrom(bits[..8], 0)] + Pack(bits[8..])
  }

  function BitOrZero(bits: seq<bit>, k: nat): bit { if k < |bits| then bits[k] else 0 }

  /** The bits from k to 7 of a byte, as a number. */
  function PackFrom(bits: seq<bit>, k: nat): (v: nat)
    requires k <= 8
    ensures v < Pow2(8 - k)
    decreases 8 - k
  {
    if k == 8 then 0 else BitOrZero(bits, k) + 2 * PackFrom(bits, k + 1)
  }

  /** A compressed file: blocks, the last one marked. */
  function Compress(bs: seq<Block>): seq<byte>
    requires AreBlocks(bs)
  {
    Pack(StreamBits(bs, 0))
  }
}
