/**
 A reference decoder for the DEFLATE format, written from sections 3.2.3 to 3.2.7 of RFC 1951
 over bit positions: no tables, no bit buffer, no output array.
 The error numbers are the ones the executor's inflate documents.
 */
module Rfc1951 {
  import opened Bits
  import opened Canonical

  // Base values and extra bits of the length codes 257.. and the distance codes (section 3.2.5).
  function LengthExtra(i: nat): (n: nat)
    requires i < 29
    ensures n <= 5
  {
    if i < 8 || i == 28 then 0 else i / 4 - 1
  }

  function LengthBase(i: nat): nat
    requires i < 29
  {
    if i < 8 then 3 + i else if i == 28 then 258 else 3 + Shl(4 + i % 4, i / 4 - 1)
  }

  function DistExtra(i: nat): (n: nat)
    requires i < 30
    ensures n <= 13
  {
    if i < 4 then 0 else i / 2 - 1
  }

  function DistBase(i: nat): (d: nat)
    requires i < 30
    ensures d >= 1
  {
    1 + if i < 4 then i else Shl(2 + i % 2, i / 2 - 1)
  }

  // Order in which the code length code lengths are sent (section 3.2.7).
  function Order(i: nat): (s: nat)
    requires i < 19
    ensures s < 19
  {
    [16, 17, 18, 0, 8, 7, 9, 6, 10, 5, 11, 4, 12, 3, 13, 2, 14, 1, 15][i]
  }

  datatype Decoded = Symbol(sym: nat) | NoCode | EndOfInput

  datatype Outcome =
    | Done(pos: nat, out: seq<byte>)
    | Fail(err: int, out: seq<byte>)

  /** What every decoding step keeps: input is consumed in bounds, output only grows and fits. */
  ghost predicate Extends(r: Outcome, bits: seq<bit>, p: nat, out: seq<byte>, room: nat) {
    && out <= r.out
    && |r.out| <= room
    && (r.Done? ==> p < r.pos <= |bits|)
    && (r.Fail? ==> r.err != 0)
  }

  /** The symbol whose code comes next, or why there is none. */
  ghost function NextSymbol(ls: Lengths, bits: seq<bit>, p: nat): Decoded
  {
    if exists s :: Matches(ls, bits, p, s) then
      var s :| Matches(ls, bits, p, s);
      Symbol(s)
    else if p + MAX_BITS <= |bits| then NoCode
    else EndOfInput
  }

  lemma {:induction false} FoundSymbol(ls: Lengths, bits: seq<bit>, p: nat, sym: nat)
    requires Matches(ls, bits, p, sym)
    ensures NextSymbol(ls, bits, p) == Symbol(sym)
  {
    var s :| NextSymbol(ls, bits, p) == Symbol(s) && Matches(ls, bits, p, s);
    MatchUnique(ls, bits, p, sym, s);
  }

  /** Appends n bytes, each copied from dist bytes back; the copy may overlap itself. */
  ghost function CopyBack(out: seq<byte>, dist: nat, n: nat): (r: seq<byte>)
    requires 1 <= dist <= |out|
    ensures |r| == |out| + n && out <= r
    decreases n
  {
    if n == 0 then out else CopyBack(out + [out[|out| - dist]], dist, n - 1)
  }

  datatype CopyCode = Copy(len: nat, dist: nat, next: nat) | BadCopy(err: int)

  /** Rest of a length/distance pair: length extra bits, distance code, distance extra bits. */
  ghost function LengthDistance(dist: Lengths, bits: seq<bit>, p: nat, sym: nat): (r: CopyCode)
    requires sym > 256 && |dist| <= 30
    ensures r.Copy? ==> p <= r.next <= |bits| && r.dist >= 1
    ensures r.BadCopy? ==> r.err != 0
  {
    if sym >= 286 then BadCopy(-10) else
    var lx := LengthExtra(sym - 257);
    if p + lx > |bits| then BadCopy(2) else
    match Distance(dist, bits, p + lx)
    case BadDist(err) => BadCopy(err)
    case Dist(d, next) => Copy(LengthBase(sym - 257) + BitsAt(bits, p, lx), d, next)
  }

  datatype DistResult = Dist(dist: nat, next: nat) | BadDist(err: int)

  ghost function Distance(dist: Lengths, bits: seq<bit>, p: nat): (r: DistResult)
    requires |dist| <= 30
    ensures r.Dist? ==> p <= r.next <= |bits| && r.dist >= 1
    ensures r.BadDist? ==> r.err != 0
  {
    match NextSymbol(dist, bits, p)
    case NoCode => BadDist(-10)
    case EndOfInput => BadDist(2)
    case Symbol(sym) =>
      var q := p + dist[sym];
      var dx := DistExtra(sym);
      if q + dx > |bits| then BadDist(2) else Dist(DistBase(sym) + BitsAt(bits, q, dx), q + dx)
  }

  /** One symbol of a block: stop, or go on at a later position with more output. */
  datatype Step = Stop(r: Outcome) | Continue(next: nat, out: seq<byte>)

  ghost function CodesStep(lit: Lengths, dist: Lengths, bits: seq<bit>, p: nat, out: seq<byte>, room: nat): (st: Step)
    requires |out| <= room && |dist| <= 30
    ensures st.Stop? ==> Extends(st.r, bits, p, out, room)
    ensures st.Continue? ==> p < st.next <= |bits| && out <= st.out && |st.out| <= room
  {
    match NextSymbol(lit, bits, p)
    case NoCode => Stop(Fail(-10, out))
    case EndOfInput => Stop(Fail(2, out))
    case Symbol(sym) =>
      var q := p + lit[sym];
      if sym < 256 then
        if |out| == room then Stop(Fail(1, out)) else Continue(q, out + [sym as byte])
      else if sym == 256 then Stop(Done(q, out))
      else CopyStep(LengthDistance(dist, bits, q, sym), out, room)
  }

  ghost function CopyStep(c: CopyCode, out: seq<byte>, room: nat): (st: Step)
    requires |out| <= room && (c.Copy? ==> c.dist >= 1)
  {
    match c
    case BadCopy(err) => Stop(Fail(err, out))
    case Copy(len, back, next) =>
      if back > |out| then Stop(Fail(-11, out))
      else if |out| + len > room then Stop(Fail(1, out))
      else Continue(next, CopyBack(out, back, len))
  }

  /** Compressed data of one block, from position p to its end-of-block code. */
  ghost function Codes(lit: Lengths, dist: Lengths, bits: seq<bit>, p: nat, out: seq<byte>, room: nat): (r: Outcome)
    requires |out| <= room && |dist| <= 30
    ensures Extends(r, bits, p, out, room)
    decreases |bits| - p
  {
    match CodesStep(lit, dist, bits, p, out, room)
    case Stop(r) => r
    case Continue(q, out') => Codes(lit, dist, bits, q, out', room)
  }

  /** LEN of a non-compressed block, or -1 if NLEN is not its complement. */
  function StoredLength(input: seq<byte>, i: nat): int
    requires i + 4 <= |input|
  {
    var len := (input[i] as int) + 256 * (input[i + 1] as int);
    var nlen := (input[i + 2] as int) + 256 * (input[i + 3] as int);
    if nlen == 0xffff - len then len else -1
  }

  /** Non-compressed block (section 3.2.4): LEN and NLEN follow at the next byte boundary. */
  ghost function Stored(input: seq<byte>, p: nat, out: seq<byte>, room: nat): (r: Outcome)
    requires |out| <= room
    ensures Extends(r, ToBits(input), p, out, room)
  {
    var i := (p + 7) / 8;
    if i + 4 > |input| then Fail(2, out) else
    var len := StoredLength(input, i);
    if len < 0 then Fail(-2, out)
    else if i + 4 + len > |input| then Fail(2, out)
    else if |out| + len > room then Fail(1, out)
    else Done(8 * (i + 4 + len), out + input[i + 4..i + 4 + len])
  }

  /** Literal/length code lengths of section 3.2.6. */
  function FixedLength(sym: nat): nat {
    if sym < 144 then 8 else if sym < 256 then 9 else if sym < 280 then 7 else 8
  }

  function FixedLit(): Lengths { seq(288, i requires i >= 0 => FixedLength(i)) }

  function FixedDist(): Lengths { seq(30, _ => 5) }

  lemma {:induction false} KraftRun(ls: Lengths, x: nat, n: nat, w: nat)
    requires 1 <= x <= 15 && w == Pow2(MAX_BITS - x)
    ensures KraftSum(ls + Repeat(x, n)) == KraftSum(ls) + n * w
  {
    if n == 0 {
      assert ls + Repeat(x, n) == ls;
    } else {
      KraftRun(ls, x, n - 1, w);
      var all := ls + Repeat(x, n);
      assert all[..|all| - 1] == ls + Repeat(x, n - 1);
      assert n * w == (n - 1) * w + w;
    }
  }

  /** The fixed literal/length code uses the whole code space. */
  lemma {:induction false} FixedLitKraft()
    ensures KraftSum(FixedLit()) == 0x8000
  {
    var a: Lengths := [] + Repeat(8, 144);
    var b: Lengths := a + Repeat(9, 112);
    var c: Lengths := b + Repeat(7, 24);
    assert FixedLit() == c + Repeat(8, 8);
    assert Pow2(7) == 128 && Pow2(6) == 64 && Pow2(8) == 256;
    KraftRun([], 8, 144, 128);
    KraftRun(a, 9, 112, 64);
    KraftRun(b, 7, 24, 256);
    KraftRun(c, 8, 8, 128);
  }

  lemma {:induction false} FixedDistKraft()
    ensures KraftSum(FixedDist()) == 30 * 1024 < 0x8000
  {
    assert FixedDist() == [] + Repeat(5, 30);
    assert Pow2(10) == 1024;
    KraftRun([], 5, 30, 1024);
  }

  // ----- dynamic blocks (section 3.2.7) -----

  /** Code length code lengths: n of them are sent, 3 bits each, in this order; the others are zero. */
  function CodeLengthLengths(bits: seq<bit>, p: nat, n: nat): (cl: Lengths)
    requires n <= 19 && p + 3 * n <= |bits|
    ensures |cl| == 19
  {
    seq(19, s requires 0 <= s < 19 => SentLength(bits, p, n, SentAt(s)))
  }

  // The place of each symbol in that order.
  function SentAt(i: nat): (s: nat)
    requires i < 19
    ensures s < 19
  {
    [3, 17, 15, 13, 11, 9, 7, 5, 4, 6, 8, 10, 12, 14, 16, 18, 0, 1, 2][i]
  }

  lemma {:induction false} OrderInverse(i: nat)
    requires i < 19
    ensures SentAt(Order(i)) == i
  {
  }

  lemma {:induction false} SentInverse(s: nat)
    requires s < 19
    ensures Order(SentAt(s)) == s
  {
  }

  function SentLength(bits: seq<bit>, p: nat, n: nat, i: nat): (l: nat)
    requires p + 3 * n <= |bits|
    ensures l <= 7
  {
    assert Pow2(3) == 8;
    if i < n then BitsBound(bits, p + 3 * i, 3); BitsAt(bits, p + 3 * i, 3) else 0
  }

  datatype LengthsResult =
    | Read(pos: nat, ls: Lengths)
    | Bad(err: int)

  function Repeat(x: nat, n: nat): (r: seq<nat>)
    ensures |r| == n && forall i :: 0 <= i < n ==> r[i] == x
  {
    seq(n, _ => x)
  }

  /** One symbol of the run-length coded code lengths. */
  datatype LengthStep = LengthsBad(err: int) | LengthsMore(next: nat, acc: Lengths)

  ghost function ReadLengthsStep(cl: Lengths, bits: seq<bit>, p: nat, acc: Lengths, total: nat): (st: LengthStep)
    requires |acc| < total && |cl| == 19
    ensures st.LengthsBad? ==> st.err != 0
    ensures st.LengthsMore? ==> p < st.next <= |bits| && |acc| < |st.acc| <= total
  {
    match NextSymbol(cl, bits, p)
    case NoCode => LengthsBad(-10)
    case EndOfInput => LengthsBad(2)
    case Symbol(sym) =>
      var q := p + cl[sym];
      if sym < 16 then LengthsMore(q, acc + [sym])
      else if sym == 16 && |acc| == 0 then LengthsBad(-5)
      else
        var extra := if sym == 16 then 2 else if sym == 17 then 3 else 7;
        if q + extra > |bits| then LengthsBad(2) else
        var run := (if sym == 18 then 11 else 3) + BitsAt(bits, q, extra);
        if |acc| + run > total then LengthsBad(-6)
        else LengthsMore(q + extra, acc + Repeat(if sym == 16 then acc[|acc| - 1] else 0, run))
  }

  /** The literal/length and distance code lengths, run-length coded with the code cl. */
  ghost function ReadLengths(cl: Lengths, bits: seq<bit>, p: nat, acc: Lengths, total: nat): (r: LengthsResult)
    requires |acc| <= total && |cl| == 19
    ensures r.Read? ==> |r.ls| == total && r.pos >= p
    ensures r.Bad? ==> r.err != 0
    decreases |bits| - p
  {
    if |acc| == total then Read(p, acc) else
    match ReadLengthsStep(cl, bits, p, acc, total)
    case LengthsBad(err) => Bad(err)
    case LengthsMore(q, acc') => ReadLengths(cl, bits, q, acc', total)
  }

  /** A code that a block may use: not over-subscribed, and incomplete only with a single one-bit code. */
  predicate Usable(ls: Lengths) {
    !Oversubscribed(ls) && (Incomplete(ls) ==> forall i :: 0 <= i < |ls| ==> ls[i] <= 1)
  }

  function CodeLengthCount(bits: seq<bit>, p: nat): (n: nat)
    requires p + 4 <= |bits|
    ensures 4 <= n <= 19
  {
    assert Pow2(4) == 16;
    BitsBound(bits, p, 4);
    BitsAt(bits, p, 4) + 4
  }

  /** The header of a dynamic block gives both codes and where the data starts. */
  datatype Header = BadHeader(err: int) | Header(lit: Lengths, dist: Lengths, next: nat)

  ghost predicate HeaderOk(h: Header, bits: seq<bit>, p: nat) {
    match h
    case BadHeader(err) => err != 0
    case Header(lit, dist, next) => |dist| <= 30 && p <= next
  }

  ghost function Dynamic(bits: seq<bit>, p: nat, out: seq<byte>, room: nat): (r: Outcome)
    requires |out| <= room
    ensures Extends(r, bits, p, out, room)
  {
    match DynamicHeader(bits, p)
    case BadHeader(err) => Fail(err, out)
    case Header(lit, dist, q) => Codes(lit, dist, bits, q, out, room)
  }

  ghost function DynamicHeader(bits: seq<bit>, p: nat): (h: Header)
    ensures HeaderOk(h, bits, p)
  {
    if p + 14 > |bits| then BadHeader(2) else
    var nlen := BitsAt(bits, p, 5) + 257;
    var ndist := BitsAt(bits, p + 5, 5) + 1;
    var ncode := CodeLengthCount(bits, p + 10);
    if nlen > 286 || ndist > 30 then BadHeader(-3)
    else HeaderWithCounts(bits, p + 14, nlen, ndist, ncode)
  }

  ghost function HeaderWithCounts(bits: seq<bit>, p: nat, nlen: nat, ndist: nat, ncode: nat): (h: Header)
    requires 257 <= nlen && ndist <= 30 && ncode <= 19
    ensures HeaderOk(h, bits, p)
  {
    match AllLengths(bits, p, ncode, nlen + ndist)
    case Bad(err) => BadHeader(err)
    case Read(q, ls) => HeaderWithLengths(ls, nlen, q)
  }

  /** Behind n code length code lengths that are sent from p on. */
  function SentEnd(p: nat, n: nat): nat { p + 3 * n }

  /** Both lists of code lengths, one after the other. */
  ghost function AllLengths(bits: seq<bit>, p: nat, ncode: nat, total: nat): (r: LengthsResult)
    requires ncode <= 19
    ensures r.Read? ==> |r.ls| == total && r.pos >= p
    ensures r.Bad? ==> r.err != 0
  {
    if SentEnd(p, ncode) > |bits| then Bad(2) else
    var cl := CodeLengthLengths(bits, p, ncode);
    if Oversubscribed(cl) || Incomplete(cl) then Bad(-4)
    else ReadLengths(cl, bits, SentEnd(p, ncode), [], total)
  }

  ghost function HeaderWithLengths(ls: Lengths, nlen: nat, p: nat): Header
    requires 257 <= nlen <= |ls|
  {
    var lit: Lengths, dist: Lengths := ls[..nlen], ls[nlen..];
    if lit[256] == 0 then BadHeader(-9)
    else if !Usable(lit) then BadHeader(-7)
    else if !Usable(dist) then BadHeader(-8)
    else Header(lit, dist, p)
  }

  /** One block: two bits of type behind the last-block bit at position p, then the data. */
  ghost function Block(input: seq<byte>, p: nat, out: seq<byte>, room: nat): (r: Outcome)
    requires |out| <= room && p + 3 <= |ToBits(input)|
    ensures Extends(r, ToBits(input), p, out, room)
  {
    BlockData(input, BitsAt(ToBits(input), p + 1, 2), p + 3, out, room)
  }

  ghost function BlockData(input: seq<byte>, kind: nat, p: nat, out: seq<byte>, room: nat): (r: Outcome)
    requires |out| <= room
    ensures Extends(r, ToBits(input), p, out, room)
  {
    if kind == 0 then Stored(input, p, out, room)
    else if kind == 1 then Codes(FixedLit(), FixedDist(), ToBits(input), p, out, room)
    else if kind == 2 then Dynamic(ToBits(input), p, out, room)
    else Fail(-1, out)
  }

  /** A whole stream: blocks up to and including the one marked last (section 3.2.3). */
  ghost function Inflate(input: seq<byte>, p: nat, out: seq<byte>, room: nat): (r: Outcome)
    requires |out| <= room
    ensures Extends(r, ToBits(input), p, out, room)
    decreases 8 * |input| - p
  {
    if p + 3 > 8 * |input| then Fail(2, out) else
    var r := Block(input, p, out, room);
    if r.Fail? || ToBits(input)[p] == 1 then r
    else Inflate(input, r.pos, r.out, room)
  }
}
