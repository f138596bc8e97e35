/**
 The exec format between prog/encodingexec.go and prog/decodeexec.go: a stream of varints and
 blobs that encodes instructions; calls are delimited only by what follows them.
 Program counts, addresses and values are uint64 with wrap-around where the source wraps.
 */
module ExecFormat {
  import opened Basics
  import opened Bits
  import opened Varint
  import opened Framing

  const INSTR_EOF: uint64 := 0xffff_ffff_ffff_ffff
  const INSTR_COPYIN: uint64 := 0xffff_ffff_ffff_fffe
  const INSTR_COPYOUT: uint64 := 0xffff_ffff_ffff_fffd
  const INSTR_SETPROPS: uint64 := 0xffff_ffff_ffff_fffc
  const INSTR_CONFIG: uint64 := 0xffff_ffff_ffff_fffb
  const NO_COPYOUT: uint64 := 0xffff_ffff_ffff_ffff
  const READABLE: uint64 := 0x8000_0000_0000_0000

  const ARG_CONST: uint64 := 0
  const ARG_ADDR32: uint64 := 1
  const ARG_ADDR64: uint64 := 2
  const ARG_RESULT: uint64 := 3
  const ARG_DATA: uint64 := 4
  const ARG_CSUM: uint64 := 5
  const CSUM_INET: uint64 := 0
  const CHUNK_DATA: uint64 := 0
  const CHUNK_CONST: uint64 := 1

  /** How one word is written and read; the format above it depends only on the round trip. */
  datatype Codec = Codec(enc: uint64 -> seq<byte>, read: Parser<uint64>) {
    ghost predicate Valid() {
      Forward(read) && forall w: uint64 :: Reads(read, enc(w), w)
    }
  }

  const VARINT: Codec := Codec(v => Encode(v), (data: seq<byte>, i: nat) => Read(data, i))

  lemma {:induction false} VarintReads(w: uint64)
    ensures Reads(VARINT.read, VARINT.enc(w), w)
  {
    forall data: seq<byte>, i: nat | At(data, i, Encode(w))
      ensures Read(data, i) == Some(Item(w, i + |Encode(w)|))
    {
      RoundTrip(w, data, i);
    }
  }

  lemma {:induction false} VarintForward()
    ensures Forward(VARINT.read)
  {
    forall data: seq<byte>, i: nat ensures Read(data, i).Some? ==> i < Read(data, i).value.next <= |data| {
    }
  }

  /** Zigzag varints are a valid word codec. */
  lemma {:induction false} VarintValid()
    ensures VARINT.Valid()
  {
    VarintForward();
    forall w: uint64 ensures Reads(VARINT.read, VARINT.enc(w), w) {
      VarintReads(w);
    }
  }

  /** What the target fixes: the data area, the number of system calls, and the word codec. */
  datatype Target = Target(dataOffset: uint64, syscalls: uint64, codec: Codec) {
    ghost predicate Valid() {
      codec.Valid() && syscalls <= INSTR_CONFIG
    }
  }

  function Wrap(x: int): uint64 { x % 0x1_0000_0000_0000_0000 }

  // ----- arguments as the writer emits them and as the decoder returns them -----

  datatype Chunk = Chunk(kind: uint64, value: uint64, size: uint64)

  datatype Arg =
    | Const(size: nat, format: nat, value: uint64, bfOff: nat, bfLen: nat, pidStride: nat)
    | Addr(wide: bool, addr: uint64)
    | Result(size: nat, format: nat, index: uint64, divOp: uint64, addOp: uint64, deflt: uint64)
    | Data(data: seq<byte>, readable: bool)
    | Csum(csumSize: uint64, chunks: seq<Chunk>)

  datatype ExecArg =
    | ExecConst(size: nat, format: nat, value: uint64, bfOff: nat, bfLen: nat, pidStride: nat)
    | ExecResult(size: nat, format: nat, index: uint64, divOp: uint64, addOp: uint64, deflt: uint64)
    | ExecData(data: seq<byte>, readable: bool)
    | ExecCsum(csumSize: uint64, chunks: seq<Chunk>)

  /** An address decodes as a constant of its width. */
  function View(a: Arg): ExecArg {
    match a
    case Const(size, format, value, off, len, pid) => ExecConst(size, format, value, off, len, pid)
    case Addr(wide, addr) => ExecConst(if wide then 8 else 4, 0, addr, 0, 0, 0)
    case Result(size, format, index, div, add, d) => ExecResult(size, format, index, div, add, d)
    case Data(data, readable) => ExecData(data, readable)
    case Csum(size, chunks) => ExecCsum(size, chunks)
  }

  /** Fields fit where the format packs them. */
  predicate ValidArg(a: Arg) {
    match a
    case Const(size, format, _, off, len, pid) =>
      size < 256 && format < 256 && off < 256 && len < 256 && pid < 0x1_0000_0000
    case Addr(_, _) => true
    case Result(size, format, _, _, _, _) => size < 256 && format < 256
    case Data(data, _) => |data| < READABLE
    case Csum(_, chunks) => |chunks| < TWO64
  }

  // ----- packed metadata -----

  function PackResult(size: nat, format: nat): nat { BitOr(size, Shl(format, 8)) }

  function PackConst(size: nat, format: nat, off: nat, len: nat, pid: nat): nat {
    BitOr(BitOr(BitOr(BitOr(size, Shl(format, 8)), Shl(off, 16)), Shl(len, 24)), Shl(pid, 32))
  }

  lemma {:induction false} ShlByte(x: nat, k: nat)
    ensures Shl(x, k + 8) == 256 * Shl(x, k)
  {
    ShlTwice(x, k);
    ShlTwice(x, k + 2);
    ShlTwice(x, k + 4);
    ShlTwice(x, k + 6);
  }

  lemma {:induction false} Pow2Byte(k: nat)
    ensures Pow2(k + 8) == 256 * Pow2(k)
  {
    Pow2Seven(k);
    assert Pow2(k + 8) == 2 * Pow2(k + 7);
  }

  lemma {:induction false} ByteShifts(x: nat)
    ensures Shl(x, 8) == 256 * x && Shl(x, 16) == 0x1_0000 * x
    ensures Shl(x, 24) == 0x100_0000 * x && Shl(x, 32) == 0x1_0000_0000 * x
  {
    ShlByte(x, 0);
    ShlByte(x, 8);
    ShlByte(x, 16);
    ShlByte(x, 24);
  }

  lemma {:induction false} BytePowers()
    ensures Pow2(8) == 256 && Pow2(16) == 0x1_0000 && Pow2(24) == 0x100_0000 && Pow2(32) == 0x1_0000_0000
  {
    Pow2Byte(8);
    Pow2Byte(16);
    Pow2Byte(24);
  }

  /** The fields occupy different bits, so the packed word is their positional sum. */
  lemma {:induction false} PackSum(size: nat, format: nat, off: nat, len: nat, pid: nat)
    requires size < 256 && format < 256 && off < 256 && len < 256
    ensures PackResult(size, format) == size + 256 * format
    ensures PackConst(size, format, off, len, pid) ==
            size + 256 * format + 0x1_0000 * off + 0x100_0000 * len + 0x1_0000_0000 * pid
  {
    BytePowers();
    ByteShifts(format);
    ByteShifts(off);
    ByteShifts(len);
    ByteShifts(pid);
    var a := size + 256 * format;
    var b := a + 0x1_0000 * off;
    var c := b + 0x100_0000 * len;
    OrShl(size, format, 8);
    assert BitOr(size, Shl(format, 8)) == a;
    OrShl(a, off, 16);
    assert BitOr(a, Shl(off, 16)) == b;
    OrShl(b, len, 24);
    assert BitOr(b, Shl(len, 24)) == c;
    OrShl(c, pid, 32);
  }

  function UnpackResult(meta: uint64, index: uint64, div: uint64, add: uint64, d: uint64): ExecArg {
    ExecResult(meta % 256, meta / 256 % 256, index, div, add, d)
  }

  function UnpackConst(meta: uint64, value: uint64): ExecArg {
    ExecConst(meta % 256, meta / 256 % 256, value, meta / 0x1_0000 % 256, meta / 0x100_0000 % 256, meta / 0x1_0000_0000)
  }

  lemma {:induction false} PackUnpack(size: nat, format: nat, off: nat, len: nat, pid: nat, v: uint64)
    requires size < 256 && format < 256 && off < 256 && len < 256 && pid < 0x1_0000_0000
    ensures PackResult(size, format) < TWO64 && PackConst(size, format, off, len, pid) < TWO64
    ensures UnpackConst(PackConst(size, format, off, len, pid), v) == ExecConst(size, format, v, off, len, pid)
    ensures forall i, d, a, x :: UnpackResult(PackResult(size, format), i, d, a, x) ==
                                 ExecResult(size, format, i, d, a, x)
  {
    PackSum(size, format, off, len, pid);
    Digits(size, format, off, len, pid);
    ResultDigits(size, format);
  }

  lemma {:induction false} ResultDigits(size: nat, format: nat)
    requires size < 256 && format < 256
    ensures var m := size + 256 * format; m % 256 == size && m / 256 % 256 == format
  {
  }

  lemma {:induction false} Digits(d0: nat, d1: nat, d2: nat, d3: nat, rest: nat)
    requires d0 < 256 && d1 < 256 && d2 < 256 && d3 < 256
    ensures var m := d0 + 256 * d1 + 0x1_0000 * d2 + 0x100_0000 * d3 + 0x1_0000_0000 * rest;
            && m % 256 == d0 && m / 256 % 256 == d1 && m / 0x1_0000 % 256 == d2
            && m / 0x100_0000 % 256 == d3 && m / 0x1_0000_0000 == rest
  {
    var m := d0 + 256 * d1 + 0x1_0000 * d2 + 0x100_0000 * d3 + 0x1_0000_0000 * rest;
    DivModUnique(m, d1 + 256 * d2 + 0x1_0000 * d3 + 0x100_0000 * rest, d0, 256);
    DivModUnique(m / 256, d2 + 256 * d3 + 0x1_0000 * rest, d1, 256);
    DivModUnique(m, d2 + 256 * d3 + 0x1_0000 * rest, d0 + 256 * d1, 0x1_0000);
    DivModUnique(m / 0x1_0000, d3 + 256 * rest, d2, 256);
    DivModUnique(m, d3 + 256 * rest, d0 + 256 * d1 + 0x1_0000 * d2, 0x100_0000);
    DivModUnique(m / 0x100_0000, rest, d3, 256);
    DivModUnique(m, rest, d0 + 256 * d1 + 0x1_0000 * d2 + 0x100_0000 * d3, 0x1_0000_0000);
  }

  // ----- words -----

  function Words(c: Codec, ws: seq<uint64>): seq<byte> {
    Many(c.enc, ws)
  }

  function ReadWords(c: Codec, data: seq<byte>, i: nat, n: nat): (r: Option<Item<seq<uint64>>>)
    requires c.Valid()
    ensures r.Some? ==> |r.value.val| == n && i <= r.value.next
    ensures r.Some? && i <= |data| ==> r.value.next <= |data|
  {
    ParseMany(c.read, data, i, n)
  }

  /** Head word, further words, tail: how every argument and instruction is laid out. */
  lemma {:induction false} Headed(c: Codec, data: seq<byte>, i: nat, ws: seq<uint64>, tail: seq<byte>, k: nat)
    requires c.Valid() && |ws| >= 1 && At(data, i, Words(c, ws) + tail) && k == i + |Words(c, ws)|
    ensures At(data, k, tail)
    ensures var r := c.read(data, i);
            && r.Some? && r.value.val == ws[0] && r.value.next <= |data|
            && ReadWords(c, data, r.value.next, |ws| - 1) == Some(Item(ws[1..], k))
  {
    AtSplit(data, i, Words(c, ws), tail);
    ManyRoundTrip(c.enc, c.read, data, i, ws, ws);
    assert ws == [ws[0]] + ws[1..];
    HeadThenRest(c.read, data, i, ws[0], ws[1..], k);
  }

  // ----- arguments -----

  function ChunkWords(t: Target, c: Chunk): seq<uint64> {
    [c.kind, if c.kind == CHUNK_DATA then Wrap(c.value - t.dataOffset) else c.value, c.size]
  }

  function ChunkFrom(t: Target, ws: seq<uint64>): Chunk
    requires |ws| == 3
  {
    Chunk(ws[0], if ws[0] == CHUNK_DATA then Wrap(ws[1] + t.dataOffset) else ws[1], ws[2])
  }

  /** Words of all chunks in a row, three per chunk. */
  function ChunksWords(t: Target, cs: seq<Chunk>): (ws: seq<uint64>)
    ensures |ws| == 3 * |cs|
  {
    if |cs| == 0 then [] else ChunkWords(t, cs[0]) + ChunksWords(t, cs[1..])
  }

  function ChunksFrom(t: Target, ws: seq<uint64>): seq<Chunk>
    requires |ws| % 3 == 0
  {
    if |ws| == 0 then [] else [ChunkFrom(t, ws[..3])] + ChunksFrom(t, ws[3..])
  }

  /** The words in front of an argument's blob or chunks. */
  function ArgWords(t: Target, a: Arg): (ws: seq<uint64>)
    ensures |ws| >= 1
  {
    match a
    case Const(size, format, value, off, len, pid) => [ARG_CONST, Wrap(PackConst(size, format, off, len, pid)), value]
    case Addr(wide, addr) => [if wide then ARG_ADDR64 else ARG_ADDR32, Wrap(addr - t.dataOffset)]
    case Result(size, format, index, div, add, d) => [ARG_RESULT, Wrap(PackResult(size, format)), index, div, add, d]
    case Data(data, readable) => [ARG_DATA, Wrap(|data| + if readable then READABLE else 0)]
    case Csum(size, chunks) => [ARG_CSUM, size, CSUM_INET, Wrap(|chunks|)]
  }

  function ArgTail(t: Target, a: Arg): seq<byte> {
    match a
    case Data(data, _) => data
    case Csum(_, chunks) => Words(t.codec, ChunksWords(t, chunks))
    case _ => []
  }

  function EncodeArg(t: Target, a: Arg): seq<byte> {
    Words(t.codec, ArgWords(t, a)) + ArgTail(t, a)
  }

  function ParseArg(t: Target, data: seq<byte>, i: nat): (r: Option<Item<ExecArg>>)
    requires t.codec.Valid()
    ensures r.Some? ==> i < r.value.next <= |data|
  {
    match t.codec.read(data, i)
    case None => None
    case Some(Item(typ, j)) => ParseArgBody(t, data, typ, j)
  }

  /** How many words follow the type word. */
  function ArgArity(typ: uint64): nat {
    if typ == ARG_CONST then 2
    else if typ == ARG_RESULT then 5
    else if typ == ARG_CSUM then 3
    else 1
  }

  function ParseArgBody(t: Target, data: seq<byte>, typ: uint64, i: nat): (r: Option<Item<ExecArg>>)
    requires t.codec.Valid() && i <= |data|
    ensures r.Some? ==> i <= r.value.next <= |data|
  {
    if typ > ARG_CSUM then None else
    match ReadWords(t.codec, data, i, ArgArity(typ))
    case None => None
    case Some(Item(ws, k)) => ParseArgTail(t, data, typ, ws, k)
  }

  function ParseArgTail(t: Target, data: seq<byte>, typ: uint64, ws: seq<uint64>, i: nat): (r: Option<Item<ExecArg>>)
    requires t.codec.Valid() && i <= |data| && |ws| == ArgArity(typ) && typ <= ARG_CSUM
    ensures r.Some? ==> i <= r.value.next <= |data|
  {
    if typ == ARG_CONST then Some(Item(UnpackConst(ws[0], ws[1]), i))
    else if typ == ARG_ADDR32 || typ == ARG_ADDR64 then
      Some(Item(ExecConst(if typ == ARG_ADDR64 then 8 else 4, 0, Wrap(ws[0] + t.dataOffset), 0, 0, 0), i))
    else if typ == ARG_RESULT then Some(Item(UnpackResult(ws[0], ws[1], ws[2], ws[3], ws[4]), i))
    else if typ == ARG_DATA then ParseBlob(data, ws[0], i)
    else if ws[1] != CSUM_INET then None
    else ParseCsum(t, data, ws[0], ws[2], i)
  }

  function ParseBlob(data: seq<byte>, flags: uint64, i: nat): (r: Option<Item<ExecArg>>)
    requires i <= |data|
    ensures r.Some? ==> i <= r.value.next <= |data|
  {
    var size := flags % READABLE;
    if |data| - i < size then None else Some(Item(ExecData(data[i..i + size], flags >= READABLE), i + size))
  }

  function ParseCsum(t: Target, data: seq<byte>, size: uint64, n: uint64, i: nat): (r: Option<Item<ExecArg>>)
    requires t.codec.Valid() && i <= |data|
    ensures r.Some? ==> i <= r.value.next <= |data|
  {
    match ReadWords(t.codec, data, i, 3 * n)
    case None => None
    case Some(Item(ws, k)) => Some(Item(ExecCsum(size, ChunksFrom(t, ws)), k))
  }

  lemma {:induction false} WrapInverse(x: uint64, off: uint64)
    ensures Wrap(Wrap(x - off) + off) == x
  {
  }

  lemma {:induction false} ChunksInverse(t: Target, cs: seq<Chunk>)
    ensures ChunksFrom(t, ChunksWords(t, cs)) == cs
  {
    if |cs| > 0 {
      var ws := ChunksWords(t, cs);
      ChunksInverse(t, cs[1..]);
      assert ws[..3] == ChunkWords(t, cs[0]) && ws[3..] == ChunksWords(t, cs[1..]);
      WrapInverse(cs[0].value, t.dataOffset);
      assert cs == [cs[0]] + cs[1..];
    }
  }

  lemma {:induction false} BlobRoundTrip(data: seq<byte>, k: nat, blob: seq<byte>, readable: bool)
    requires |blob| < READABLE && At(data, k, blob)
    ensures ParseBlob(data, Wrap(|blob| + if readable then READABLE else 0), k) ==
            Some(Item(ExecData(blob, readable), k + |blob|))
  {
  }

  lemma {:induction false} CsumRoundTrip(t: Target, data: seq<byte>, k: nat, size: uint64, chunks: seq<Chunk>)
    requires t.codec.Valid() && |chunks| < TWO64
    requires At(data, k, Words(t.codec, ChunksWords(t, chunks)))
    ensures ParseCsum(t, data, size, Wrap(|chunks|), k) ==
            Some(Item(ExecCsum(size, chunks), k + |Words(t.codec, ChunksWords(t, chunks))|))
  {
    var ws := ChunksWords(t, chunks);
    assert Wrap(|chunks|) == |chunks|;
    ManyRoundTrip(t.codec.enc, t.codec.read, data, k, ws, ws);
    ChunksInverse(t, chunks);
  }

  lemma {:induction false} PackWraps(size: nat, format: nat, off: nat, len: nat, pid: nat, value: uint64)
    requires size < 256 && format < 256 && off < 256 && len < 256 && pid < 0x1_0000_0000
    ensures Wrap(PackConst(size, format, off, len, pid)) == PackConst(size, format, off, len, pid)
    ensures Wrap(PackResult(size, format)) == PackResult(size, format)
  {
    PackUnpack(size, format, off, len, pid, value);
    WrapSmall(PackConst(size, format, off, len, pid));
    WrapSmall(PackResult(size, format));
  }

  lemma {:induction false} WrapSmall(x: nat)
    requires x < TWO64
    ensures Wrap(x) == x
  {
  }

  lemma {:induction false} RegisterRoundTrip(t: Target, data: seq<byte>, k: nat, a: Arg)
    requires t.codec.Valid() && ValidCallArg(a) && k <= |data|
    ensures var ws := ArgWords(t, a);
            && ws[0] <= ARG_RESULT && |ws| == 1 + ArgArity(ws[0])
            && ParseArgTail(t, data, ws[0], ws[1..], k) == Some(Item(View(a), k))
  {
    var ws := ArgWords(t, a);
    match a
    case Const(size, format, value, off, len, pid) =>
      PackWraps(size, format, off, len, pid, value);
      PackUnpack(size, format, off, len, pid, value);
      assert ws[1..] == [PackConst(size, format, off, len, pid), value];
    case Addr(_, addr) =>
      WrapInverse(addr, t.dataOffset);
    case Result(size, format, index, div, add, d) =>
      PackWraps(size, format, 0, 0, 0, 0);
      PackUnpack(size, format, 0, 0, 0, 0);
      assert ws[1..] == [PackResult(size, format), index, div, add, d];
  }

  lemma {:induction false} ArgTailRoundTrip(t: Target, data: seq<byte>, k: nat, a: Arg)
    requires t.codec.Valid() && ValidArg(a) && At(data, k, ArgTail(t, a))
    ensures var ws := ArgWords(t, a);
            && ws[0] <= ARG_CSUM && |ws| == 1 + ArgArity(ws[0])
            && ParseArgTail(t, data, ws[0], ws[1..], k) == Some(Item(View(a), k + |ArgTail(t, a)|))
  {
    match a
    case Data(blob, readable) => BlobRoundTrip(data, k, blob, readable);
    case Csum(size, chunks) => CsumRoundTrip(t, data, k, size, chunks);
    case _ => RegisterRoundTrip(t, data, k, a);
  }

  /** Every argument is read back, whatever follows it. */
  lemma {:induction false} ArgRoundTrip(t: Target, data: seq<byte>, i: nat, a: Arg)
    requires t.codec.Valid() && ValidArg(a) && At(data, i, EncodeArg(t, a))
    ensures ParseArg(t, data, i) == Some(Item(View(a), i + |EncodeArg(t, a)|))
  {
    var ws := ArgWords(t, a);
    var k := i + |Words(t.codec, ws)|;
    Headed(t.codec, data, i, ws, ArgTail(t, a), k);
    ArgTailRoundTrip(t, data, k, a);
  }

  // ----- instructions -----

  datatype Instr<+A> =
    | Copyin(addr: uint64, arg: A)
    | Copyout(index: uint64, addr: uint64, size: uint64)
    | SetProps(failNth: uint64, async: uint64, rerun: uint64)
    | Config(param: uint64, value: uint64, flags: uint64)
    | Call(id: uint64, index: uint64, args: seq<A>)
    | Eof

  function ViewArgs(args: seq<Arg>): (r: seq<ExecArg>)
    ensures |r| == |args|
  {
    seq(|args|, i requires 0 <= i < |args| => View(args[i]))
  }

  function ViewInstr(x: Instr<Arg>): Instr<ExecArg> {
    match x
    case Copyin(addr, arg) => Copyin(addr, View(arg))
    case Copyout(index, addr, size) => Copyout(index, addr, size)
    case SetProps(f, a, r) => SetProps(f, a, r)
    case Config(p, v, f) => Config(p, v, f)
    case Call(id, index, args) => Call(id, index, ViewArgs(args))
    case Eof => Eof
  }

  /** Call arguments are registers: no blobs and no checksums. */
  predicate ValidCallArg(a: Arg) {
    ValidArg(a) && !a.Data? && !a.Csum?
  }

  predicate ValidInstr(t: Target, x: Instr<Arg>) {
    match x
    case Copyin(_, arg) => ValidArg(arg)
    case Call(id, _, args) => id < t.syscalls && |args| < TWO64 && forall i :: 0 <= i < |args| ==> ValidCallArg(args[i])
    case _ => true
  }

  function ArgEncoder(t: Target): Arg -> seq<byte> {
    a => EncodeArg(t, a)
  }

  /** One call argument; anything but a constant, an address or a result is an error. */
  function ParseCallArg(t: Target, data: seq<byte>, i: nat): Option<Item<ExecArg>>
    requires t.codec.Valid()
  {
    match ParseArg(t, data, i)
    case None => None
    case Some(Item(a, j)) => if a.ExecData? || a.ExecCsum? then None else Some(Item(a, j))
  }

  function CallArgParser(t: Target): (p: Parser<ExecArg>)
    requires t.codec.Valid()
    ensures Forward(p)
  {
    (data: seq<byte>, i: nat) => ParseCallArg(t, data, i)
  }

  function InstrWords(t: Target, x: Instr<Arg>): (ws: seq<uint64>)
    ensures |ws| >= 1
  {
    match x
    case Copyin(addr, _) => [INSTR_COPYIN, Wrap(addr - t.dataOffset)]
    case Copyout(index, addr, size) => [INSTR_COPYOUT, index, Wrap(addr - t.dataOffset), size]
    case SetProps(f, a, r) => [INSTR_SETPROPS, f, a, r]
    case Config(p, v, f) => [INSTR_CONFIG, p, v, f]
    case Call(id, index, args) => [id, index, Wrap(|args|)]
    case Eof => [INSTR_EOF]
  }

  function InstrTail(t: Target, x: Instr<Arg>): seq<byte> {
    match x
    case Copyin(_, arg) => EncodeArg(t, arg)
    case Call(_, _, args) => Many(ArgEncoder(t), args)
    case _ => []
  }

  function EncodeInstr(t: Target, x: Instr<Arg>): seq<byte> {
    Words(t.codec, InstrWords(t, x)) + InstrTail(t, x)
  }

  /** How many words follow the opcode. */
  function InstrArity(op: uint64): nat {
    if op == INSTR_EOF then 0
    else if op == INSTR_COPYIN then 1
    else if op == INSTR_COPYOUT || op == INSTR_SETPROPS || op == INSTR_CONFIG then 3
    else 2
  }

  function ParseInstr(t: Target, data: seq<byte>, i: nat): (r: Option<Item<Instr<ExecArg>>>)
    requires t.codec.Valid()
    ensures r.Some? ==> i < r.value.next <= |data|
  {
    match t.codec.read(data, i)
    case None => None
    case Some(Item(op, j)) => ParseInstrBody(t, data, op, j)
  }

  function ParseInstrBody(t: Target, data: seq<byte>, op: uint64, i: nat): (r: Option<Item<Instr<ExecArg>>>)
    requires t.codec.Valid() && i <= |data|
    ensures r.Some? ==> i <= r.value.next <= |data|
  {
    if op < INSTR_CONFIG && op >= t.syscalls then None else
    match ReadWords(t.codec, data, i, InstrArity(op))
    case None => None
    case Some(Item(ws, k)) => ParseInstrTail(t, data, op, ws, k)
  }

  function ParseInstrTail(t: Target, data: seq<byte>, op: uint64, ws: seq<uint64>,
                          i: nat): (r: Option<Item<Instr<ExecArg>>>)
    requires t.codec.Valid() && i <= |data| && |ws| == InstrArity(op)
    ensures r.Some? ==> i <= r.value.next <= |data|
  {
    if op == INSTR_EOF then Some(Item(Eof, i))
    else if op == INSTR_COPYIN then
      match ParseArg(t, data, i)
      case None => None
      case Some(Item(a, m)) => Some(Item(Copyin(Wrap(ws[0] + t.dataOffset), a), m))
    else if op == INSTR_COPYOUT then Some(Item(Copyout(ws[0], Wrap(ws[1] + t.dataOffset), ws[2]), i))
    else if op == INSTR_SETPROPS then Some(Item(SetProps(ws[0], ws[1], ws[2]), i))
    else if op == INSTR_CONFIG then Some(Item(Config(ws[0], ws[1], ws[2]), i))
    else
      match ParseMany(CallArgParser(t), data, i, ws[1])
      case None => None
      case Some(Item(args, m)) => Some(Item(Call(op, ws[0], args), m))
  }

  lemma {:induction false} CallArgReads(t: Target, a: Arg)
    requires t.codec.Valid() && ValidCallArg(a)
    ensures Reads(CallArgParser(t), ArgEncoder(t)(a), View(a))
  {
    forall data: seq<byte>, i: nat | At(data, i, ArgEncoder(t)(a))
      ensures CallArgParser(t)(data, i) == Some(Item(View(a), i + |ArgEncoder(t)(a)|))
    {
      ArgRoundTrip(t, data, i, a);
    }
  }

  lemma {:induction false} CallArgsRoundTrip(t: Target, data: seq<byte>, i: nat, args: seq<Arg>)
    requires t.codec.Valid() && At(data, i, Many(ArgEncoder(t), args))
    requires forall j :: 0 <= j < |args| ==> ValidCallArg(args[j])
    ensures ParseMany(CallArgParser(t), data, i, |args|) ==
            Some(Item(ViewArgs(args), i + |Many(ArgEncoder(t), args)|))
  {
    CallArgsRead(t, args, ViewArgs(args));
    ManyParses(ArgEncoder(t), CallArgParser(t), data, i, args, ViewArgs(args), |args|, i + |Many(ArgEncoder(t), args)|);
  }

  lemma {:induction false} CallArgsRead(t: Target, args: seq<Arg>, vs: seq<ExecArg>)
    requires t.codec.Valid() && vs == ViewArgs(args)
    requires forall j :: 0 <= j < |args| ==> ValidCallArg(args[j])
    ensures forall j :: 0 <= j < |args| ==> Reads(CallArgParser(t), ArgEncoder(t)(args[j]), vs[j])
  {
    forall j | 0 <= j < |args| ensures Reads(CallArgParser(t), ArgEncoder(t)(args[j]), vs[j]) {
      CallArgReads(t, args[j]);
    }
  }

  lemma {:induction false} CopyinRoundTrip(t: Target, data: seq<byte>, k: nat, addr: uint64, arg: Arg)
    requires t.Valid() && ValidArg(arg) && At(data, k, EncodeArg(t, arg))
    ensures ParseInstrTail(t, data, INSTR_COPYIN, [Wrap(addr - t.dataOffset)], k) ==
            Some(Item(Copyin(addr, View(arg)), k + |EncodeArg(t, arg)|))
  {
    WrapInverse(addr, t.dataOffset);
    ArgRoundTrip(t, data, k, arg);
    CopyinTail(t, data, [Wrap(addr - t.dataOffset)], k, View(arg), k + |EncodeArg(t, arg)|);
  }

  lemma {:induction false} CopyinTail(t: Target, data: seq<byte>, ws: seq<uint64>, k: nat, v: ExecArg, m: nat)
    requires t.Valid() && k <= |data| && |ws| == 1 && ParseArg(t, data, k) == Some(Item(v, m))
    ensures ParseInstrTail(t, data, INSTR_COPYIN, ws, k) == Some(Item(Copyin(Wrap(ws[0] + t.dataOffset), v), m))
  {
  }

  lemma {:induction false} CallRoundTrip(t: Target, data: seq<byte>, k: nat, id: uint64, ws: seq<uint64>,
                                         args: seq<Arg>, vs: seq<ExecArg>, m: nat)
    requires t.Valid() && id < t.syscalls && |args| < TWO64 && At(data, k, Many(ArgEncoder(t), args))
    requires forall j :: 0 <= j < |args| ==> ValidCallArg(args[j])
    requires |ws| == 2 && ws[1] == |args| && vs == ViewArgs(args) && m == k + |Many(ArgEncoder(t), args)|
    ensures ParseInstrTail(t, data, id, ws, k) == Some(Item(Call(id, ws[0], vs), m))
  {
    CallArgsRoundTrip(t, data, k, args);
    CallTail(t, data, id, ws, k, vs, m);
  }

  lemma {:induction false} CallTail(t: Target, data: seq<byte>, id: uint64, ws: seq<uint64>, k: nat, args: seq<ExecArg>,
                                    m: nat)
    requires t.Valid() && id < t.syscalls && k <= |data| && |ws| == 2
    requires ParseMany(CallArgParser(t), data, k, ws[1]) == Some(Item(args, m))
    ensures ParseInstrTail(t, data, id, ws, k) == Some(Item(Call(id, ws[0], args), m))
  {
  }

  lemma {:induction false} PlainRoundTrip(t: Target, data: seq<byte>, k: nat, x: Instr<Arg>)
    requires t.Valid() && k <= |data| && !x.Copyin? && !x.Call?
    ensures var ws := InstrWords(t, x);
            && |ws| == 1 + InstrArity(ws[0]) && ws[0] >= INSTR_CONFIG
            && ParseInstrTail(t, data, ws[0], ws[1..], k) == Some(Item(ViewInstr(x), k))
  {
    if x.Copyout? { WrapInverse(x.addr, t.dataOffset); }
  }

  lemma {:induction false} InstrTailRoundTrip(t: Target, data: seq<byte>, k: nat, x: Instr<Arg>)
    requires t.Valid() && ValidInstr(t, x) && At(data, k, InstrTail(t, x))
    ensures var ws := InstrWords(t, x);
            && |ws| == 1 + InstrArity(ws[0])
            && (ws[0] < INSTR_CONFIG ==> ws[0] < t.syscalls)
            && ParseInstrTail(t, data, ws[0], ws[1..], k) == Some(Item(ViewInstr(x), k + |InstrTail(t, x)|))
  {
    match x
    case Copyin(addr, arg) =>
      CopyinRoundTrip(t, data, k, addr, arg);
      assert InstrWords(t, x)[1..] == [Wrap(addr - t.dataOffset)];
    case Call(id, index, args) =>
      WrapSmall(|args|);
      CallRoundTrip(t, data, k, id, [index, |args|], args, ViewArgs(args), k + |Many(ArgEncoder(t), args)|);
      assert InstrWords(t, x)[1..] == [index, |args|];
    case _ => PlainRoundTrip(t, data, k, x);
  }

  /** Every instruction is read back, whatever follows it. */
  lemma {:induction false} InstrRoundTrip(t: Target, data: seq<byte>, i: nat, x: Instr<Arg>)
    requires t.Valid() && ValidInstr(t, x) && At(data, i, EncodeInstr(t, x))
    ensures ParseInstr(t, data, i) == Some(Item(ViewInstr(x), i + |EncodeInstr(t, x)|))
  {
    var ws := InstrWords(t, x);
    var k := i + |Words(t.codec, ws)|;
    Headed(t.codec, data, i, ws, InstrTail(t, x), k);
    InstrTailRoundTrip(t, data, k, x);
    InstrFrom(t, data, i, ws, k, ViewInstr(x), k + |InstrTail(t, x)|);
  }

  lemma {:induction false} InstrFrom(t: Target, data: seq<byte>, i: nat, ws: seq<uint64>, k: nat, v: Instr<ExecArg>,
                                     m: nat)
    requires t.codec.Valid() && |ws| >= 1 && k <= |data|
    requires t.codec.read(data, i).Some? && t.codec.read(data, i).value.val == ws[0]
             && t.codec.read(data, i).value.next <= |data|
    requires ReadWords(t.codec, data, t.codec.read(data, i).value.next, |ws| - 1) == Some(Item(ws[1..], k))
    requires |ws| == 1 + InstrArity(ws[0]) && (ws[0] < INSTR_CONFIG ==> ws[0] < t.syscalls)
    requires ParseInstrTail(t, data, ws[0], ws[1..], k) == Some(Item(v, m))
    ensures ParseInstr(t, data, i) == Some(Item(v, m))
  {
  }
}
