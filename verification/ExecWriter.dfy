/**
 The writer of the exec format (execContext in prog/encodingexec.go), proved against the definition
 of the format and of the indices and addresses that it uses.
 */
module ExecWriter {
  import opened Basics
  import opened Bits
  import opened Varint
  import opened Framing
  import opened ExecFormat
  import opened StableOrder
  import opened ExecStream
  import opened ExecResources
  import opened ExecCode

  const MAX_BUFFER: nat := 0x40_0000
  const MAX_COMMANDS: nat := 1000

  function Bytes(t: Target, xs: seq<Instr<Arg>>): seq<byte> { Many(InstrEncoder(t), xs) }

  method AppendWord(c: Codec, buf: seq<byte>, v: uint64) returns (r: seq<byte>)
    requires IsVarint(c)
    ensures r == buf + c.enc(v)
  {
    assert Open(true);
    r := Append(buf, v);
  }

  /** Items written so far in front of those still to come. */
  function Join(cs: seq<ExecCopyin<Arg>>, rest: Option<Copied>): Option<Copied> {
    match rest
    case None => None
    case Some(Copied(m, ds)) => Some(Copied(m, cs + ds))
  }

  lemma {:induction false} JoinNext(m: Infos, vs: seq<Visit>, cs: seq<ExecCopyin<Arg>>)
    requires |vs| > 0
    ensures var m' := NoteAddr(m, vs[0]);
            Join(cs, ExecResources.WriteCopyin(m, vs)) ==
            if !Emitted(vs[0]) then Join(cs, ExecResources.WriteCopyin(m', vs[1..]))
            else match Lower(m', vs[0].arg)
                 case None => None
                 case Some(a) => Join(cs + [ExecCopyin(AddrOf(vs[0]), a)], ExecResources.WriteCopyin(m', vs[1..]))
  {
    var m' := NoteAddr(m, vs[0]);
    match ExecResources.WriteCopyin(m', vs[1..])
    case None =>
    case Some(Copied(_, ds)) =>
      if Emitted(vs[0]) && Lower(m', vs[0].arg).Some? {
        var x := ExecCopyin(AddrOf(vs[0]), Lower(m', vs[0].arg).value);
        assert cs + ([x] + ds) == cs + [x] + ds;
      }
  }

  lemma {:induction false} BytesSnoc(t: Target, xs: seq<Instr<Arg>>, x: Instr<Arg>)
    ensures Bytes(t, xs + [x]) == Bytes(t, xs) + EncodeInstr(t, x)
  {
    ManyConcat(InstrEncoder(t), xs, [x]);
    assert Many(InstrEncoder(t), [x]) == EncodeInstr(t, x) + [];
  }

  lemma {:induction false} CopyinSnoc(t: Target, cs: seq<ExecCopyin<Arg>>, x: ExecCopyin<Arg>)
    ensures Bytes(t, CopyinInstrs(cs + [x])) == Bytes(t, CopyinInstrs(cs)) + EncodeInstr(t, Copyin(x.addr, x.arg))
  {
    BytesSnoc(t, CopyinInstrs(cs), Copyin(x.addr, x.arg));
    assert CopyinInstrs(cs + [x]) == CopyinInstrs(cs) + [Copyin(x.addr, x.arg)];
  }

  lemma {:induction false} CopyinConcat(t: Target, b: seq<byte>, cs: seq<ExecCopyin<Arg>>, ds: seq<ExecCopyin<Arg>>)
    ensures b + Bytes(t, CopyinInstrs(cs)) + Bytes(t, CopyinInstrs(ds)) == b + Bytes(t, CopyinInstrs(cs + ds))
  {
    CopyinInstrsConcat(cs, ds, CopyinInstrs(cs), CopyinInstrs(ds), CopyinInstrs(cs + ds));
    ManyConcat(InstrEncoder(t), CopyinInstrs(cs), CopyinInstrs(ds));
    ConcatAssoc(b, Bytes(t, CopyinInstrs(cs)), Bytes(t, CopyinInstrs(ds)));
  }

  lemma {:induction false} CopyinInstrsConcat(cs: seq<ExecCopyin<Arg>>, ds: seq<ExecCopyin<Arg>>,
                                              xs: seq<Instr<Arg>>, ys: seq<Instr<Arg>>, zs: seq<Instr<Arg>>)
    requires xs == CopyinInstrs(cs) && ys == CopyinInstrs(ds) && zs == CopyinInstrs(cs + ds)
    ensures zs == xs + ys
  {
    forall i | 0 <= i < |zs| ensures zs[i] == (xs + ys)[i] {
      if i >= |cs| { assert (cs + ds)[i] == ds[i - |cs|]; }
    }
  }

  lemma {:induction false} CopyinBytes(t: Target, b: seq<byte>, addr: uint64, a: Arg)
    ensures b + Words(t.codec, [INSTR_COPYIN, Wrap(addr - t.dataOffset)]) + EncodeArg(t, a) ==
            b + EncodeInstr(t, Copyin(addr, a))
  {
    ConcatAssoc(b, Words(t.codec, [INSTR_COPYIN, Wrap(addr - t.dataOffset)]), EncodeArg(t, a));
  }

  lemma {:induction false} CopyoutSnoc(t: Target, cs: seq<ExecCopyout>, x: ExecCopyout)
    ensures Bytes(t, CopyoutInstrs(cs + [x])) ==
            Bytes(t, CopyoutInstrs(cs)) + EncodeInstr(t, Copyout(x.index, x.addr, x.size))
  {
    BytesSnoc(t, CopyoutInstrs(cs), Copyout(x.index, x.addr, x.size));
    assert CopyoutInstrs(cs + [x]) == CopyoutInstrs(cs) + [Copyout(x.index, x.addr, x.size)];
  }

  /** The instructions of a call behind what is copied in. */
  function RestInstrs(c: ExecCall<Arg>): seq<Instr<Arg>> {
    PropsInstrs(c.props) + [Call(c.id, c.index, c.args)] + CopyoutInstrs(c.copyout)
  }

  /** The end of serializeCall, with the bookkeeping m and the copyins cs. */
  function RestOfCall(z: uint64, m: Infos, n: nat, c: PCall, cs: seq<ExecCopyin<Arg>>): Option<Serial> {
    if RetUsed(c) && c.ret.value.id in m then None else
    var m2 := if RetUsed(c) then m[c.ret.value.id := Info(z, n, true)] else m;
    match LowerAll(m2, c.args)
    case None => None
    case Some(args) =>
      var out := ExecResources.WriteCopyout(z, m2, if RetUsed(c) then n + 1 else n, Visits(c));
      Some(Serial(out.m, out.seq_,
          ExecCall(cs, c.props, c.id, if RetUsed(c) then Wrap(n) else NO_COPYOUT, args, out.cs)))
  }

  lemma {:induction false} RestFollows(z: uint64, m: Infos, n: nat, c: PCall, m1: Infos)
    requires ExecResources.WriteCopyin(m, Visits(c)).Some? && ExecResources.WriteCopyin(m, Visits(c)).value.m == m1
    ensures ExecResources.SerializeCall(z, m, n, c) ==
            RestOfCall(z, m1, n, c, ExecResources.WriteCopyin(m, Visits(c)).value.cs + Checksums(z, Visits(c), c.csums))
  {
  }

  lemma {:induction false} BytesOfRest(t: Target, b: seq<byte>, c: ExecCall<Arg>)
    ensures b + Bytes(t, PropsInstrs(c.props)) + EncodeInstr(t, Call(c.id, c.index, c.args)) +
            Bytes(t, CopyoutInstrs(c.copyout)) ==
            b + Bytes(t, RestInstrs(c))
  {
    var x, d, e := PropsInstrs(c.props), Call(c.id, c.index, c.args), CopyoutInstrs(c.copyout);
    ManyConcat(InstrEncoder(t), x + [d], e);
    BytesSnoc(t, x, d);
    Concat4(b, Bytes(t, x), EncodeInstr(t, d), Bytes(t, e));
  }

  lemma {:induction false} BytesOfCall(t: Target, b: seq<byte>, c: ExecCall<Arg>)
    ensures b + Bytes(t, CopyinInstrs(c.copyin)) + Bytes(t, RestInstrs(c)) == b + Bytes(t, CallInstrs(c))
  {
    assert CallInstrs(c) == CopyinInstrs(c.copyin) + RestInstrs(c);
    ManyConcat(InstrEncoder(t), CopyinInstrs(c.copyin), RestInstrs(c));
    ConcatAssoc(b, Bytes(t, CopyinInstrs(c.copyin)), Bytes(t, RestInstrs(c)));
  }

  /** Arguments lowered so far in front of those still to come. */
  function JoinArgs(xs: seq<Arg>, rest: Option<seq<Arg>>): Option<seq<Arg>> {
    match rest
    case None => None
    case Some(ys) => Some(xs + ys)
  }

  lemma {:induction false} JoinArgsNext(m: Infos, args: seq<PArg>, xs: seq<Arg>)
    requires |args| > 0
    ensures JoinArgs(xs, LowerAll(m, args)) ==
            match Lower(m, args[0])
            case None => None
            case Some(a) => JoinArgs(xs + [a], LowerAll(m, args[1..]))
  {
    if Lower(m, args[0]).Some? && LowerAll(m, args[1..]).Some? {
      ConcatAssoc(xs, [Lower(m, args[0]).value], LowerAll(m, args[1..]).value);
    }
  }

  // ----- addresses of checksum fields -----

  function ChunkPlaces(ks: seq<PChunk>): set<nat> { set k | k in ks && k.ArgChunk? :: k.at }

  /** Places of the arguments whose addresses the checksums of a call need. */
  function Places(csums: seq<PCsum>): set<nat> {
    if |csums| == 0 then {}
        else Places(csums[..|csums| - 1]) + {csums[|csums| - 1].field} + ChunkPlaces(csums[|csums| - 1].chunks)
  }

  lemma {:induction false} PlacesOf(csums: seq<PCsum>, k: PCsum)
    requires k in csums
    ensures k.field in Places(csums)
    ensures forall i :: 0 <= i < |k.chunks| && k.chunks[i].ArgChunk? ==> k.chunks[i].at in Places(csums)
  {
    if csums[|csums| - 1] == k {
      forall i | 0 <= i < |k.chunks| && k.chunks[i].ArgChunk? ensures k.chunks[i].at in ChunkPlaces(k.chunks) {
        assert k.chunks[i] in k.chunks;
      }
    } else {
      PlacesOf(csums[..|csums| - 1], k);
    }
  }

  /** Of the first n arguments, those marked and in memory have their addresses noted. */
  predicate Noted(noted: map<nat, uint64>, vs: seq<Visit>, marked: set<nat>, n: nat) {
    && (forall p :: p in noted ==> p < n && p < |vs| && vs[p].base.Some? && noted[p] == AddrOf(vs[p]))
    && (forall p :: p in marked && p < n && p < |vs| && vs[p].base.Some? ==> p in noted)
  }

  lemma {:induction false} KeysAgree(noted: map<nat, uint64>, vs: seq<Visit>, csums: seq<PCsum>, z: uint64,
                                     key: PCsum -> seq<int>)
    requires Noted(noted, vs, Places(csums), |vs|)
    requires forall k :: key(k) == [if k.field in noted then noted[k.field] as int else z as int]
    ensures Sort(csums, key) == Sort(csums, FieldKey(z, vs))
  {
    forall i | 0 <= i < |csums| ensures key(csums[i]) == FieldKey(z, vs)(csums[i]) {
      PlacesOf(csums, csums[i]);
    }
    SortAgrees(csums, key, FieldKey(z, vs));
  }

  lemma {:induction false} SortedPlace(csums: seq<PCsum>, key: PCsum -> seq<int>, i: nat)
    requires i < |Sort(csums, key)|
    ensures Sort(csums, key)[i] in csums
  {
    SortBag(csums, key);
    assert Sort(csums, key)[i] in multiset(Sort(csums, key));
  }

  lemma {:induction false} CsumBytes(t: Target, b: seq<byte>, size: uint64, chunks: seq<Chunk>, n: nat)
    requires |chunks| == n
    ensures b + Words(t.codec, [ARG_CSUM, size, CSUM_INET, Wrap(n)]) + Words(t.codec, ChunksWords(t, chunks)) ==
            b + EncodeArg(t, Csum(size, chunks))
  {
    ConcatAssoc(b, Words(t.codec, [ARG_CSUM, size, CSUM_INET, Wrap(n)]), Words(t.codec, ChunksWords(t, chunks)));
  }

  lemma {:induction false} CsumInstr(t: Target, b: seq<byte>, b': seq<byte>, b'': seq<byte>, all: seq<byte>,
                                     addr: uint64, size: uint64, chunks: seq<Chunk>, n: nat)
    requires |chunks| == n && b' == b + Words(t.codec, [INSTR_COPYIN, Wrap(addr - t.dataOffset)])
    requires b'' == b' + Words(t.codec, [ARG_CSUM, size, CSUM_INET, Wrap(n)])
    requires all == b'' + Words(t.codec, ChunksWords(t, chunks))
    ensures all == b + EncodeInstr(t, Copyin(addr, Csum(size, chunks)))
  {
    CsumBytes(t, b', size, chunks, n);
    CopyinBytes(t, b, addr, Csum(size, chunks));
  }

  lemma {:induction false} CsumIs(noted: map<nat, uint64>, vs: seq<Visit>, csums: seq<PCsum>, k: PCsum, z: uint64,
                                  addr: uint64, size: uint64)
    requires Noted(noted, vs, Places(csums), |vs|) && k in csums
    requires addr == (if k.field in noted then noted[k.field] else z)
    requires size == if k.field < |vs| then Wrap(vs[k.field].arg.size) else 0
    ensures LowerCsum(z, vs, k) == ExecCopyin(addr, Csum(size, LowerChunks(z, vs, k.chunks)))
  {
    PlacesOf(csums, k);
  }

  /** The checksums cs are written behind b, and those of the first i sorted fields are left. */
  ghost predicate CsumsLeft(t: Target, z: uint64, vs: seq<Visit>, sorted: seq<PCsum>, i: nat,
                            cs: seq<ExecCopyin<Arg>>, all: seq<ExecCopyin<Arg>>, b: seq<byte>, buf: seq<byte>) {
    forall u: bool {:trigger Open(u)} :: Open(u) ==>
      i <= |sorted| && cs + FromLast(z, vs, sorted[..i]) == all && buf == b + Bytes(t, CopyinInstrs(cs))
  }

  lemma {:induction false} CsumsStart(t: Target, z: uint64, vs: seq<Visit>, sorted: seq<PCsum>,
                                      all: seq<ExecCopyin<Arg>>, b: seq<byte>)
    requires FromLast(z, vs, sorted) == all
    ensures CsumsLeft(t, z, vs, sorted, |sorted|, [], all, b, b)
  {
    assert sorted[..|sorted|] == sorted && [] + all == all;
    var none: seq<ExecCopyin<Arg>> := [];
    assert CopyinInstrs(none) == [] && b + Bytes(t, []) == b;
  }

  lemma {:induction false} CsumsEnd(t: Target, z: uint64, vs: seq<Visit>, sorted: seq<PCsum>,
                                    cs: seq<ExecCopyin<Arg>>, all: seq<ExecCopyin<Arg>>, b: seq<byte>, buf: seq<byte>)
    requires CsumsLeft(t, z, vs, sorted, 0, cs, all, b, buf)
    ensures buf == b + Bytes(t, CopyinInstrs(all))
  {
    assert Open(true);
    assert cs + [] == cs;
  }

  /** The last of the first i + 1 sorted fields is written next. */
  lemma {:induction false} CsumNext(t: Target, z: uint64, vs: seq<Visit>, sorted: seq<PCsum>, i: nat,
                                    cs: seq<ExecCopyin<Arg>>, all: seq<ExecCopyin<Arg>>, b: seq<byte>, buf: seq<byte>,
                                    buf': seq<byte>)
    requires i < |sorted| && CsumsLeft(t, z, vs, sorted, i + 1, cs, all, b, buf)
    requires var x := LowerCsum(z, vs, sorted[i]); buf' == buf + EncodeInstr(t, Copyin(x.addr, x.arg))
    ensures CsumsLeft(t, z, vs, sorted, i, cs + [LowerCsum(z, vs, sorted[i])], all, b, buf')
  {
    assert Open(true);
    var x := LowerCsum(z, vs, sorted[i]);
    assert sorted[..i + 1][..i] == sorted[..i];
    ConcatAssoc(cs, [x], FromLast(z, vs, sorted[..i]));
    CopyinSnoc(t, cs, x);
    ConcatAssoc(b, Bytes(t, CopyinInstrs(cs)), EncodeInstr(t, Copyin(x.addr, x.arg)));
  }

  lemma {:induction false} ChunksSnoc(t: Target, cs: seq<Chunk>, c: Chunk)
    ensures ChunksWords(t, cs + [c]) == ChunksWords(t, cs) + ChunkWords(t, c)
  {
    if |cs| == 0 {
      assert cs + [c] == [c] && [c][1..] == [];
    } else {
      assert (cs + [c])[1..] == cs[1..] + [c];
      ChunksSnoc(t, cs[1..], c);
    }
  }

  lemma {:induction false} ChunksNext(t: Target, z: uint64, vs: seq<Visit>, ks: seq<PChunk>, i: nat, b: seq<byte>)
    requires i < |ks|
    ensures b + Words(t.codec, ChunksWords(t, LowerChunks(z, vs, ks[..i + 1]))) ==
            b + Words(t.codec, ChunksWords(t, LowerChunks(z, vs, ks[..i]))) +
            Words(t.codec, ChunkWords(t, LowerChunk(z, vs, ks[i])))
  {
    var cs, c := LowerChunks(z, vs, ks[..i]), LowerChunk(z, vs, ks[i]);
    assert LowerChunks(z, vs, ks[..i + 1]) == cs + [c];
    ChunksSnoc(t, cs, c);
    ManyConcat(t.codec.enc, ChunksWords(t, cs), ChunkWords(t, c));
    ConcatAssoc(b, Words(t.codec, ChunksWords(t, cs)), Words(t.codec, ChunkWords(t, c)));
  }

  class ExecContext {
    const target: Target
    var buf: seq<byte>
    var args: Infos
    var copyoutSeq: nat
    var noted: map<nat, uint64>   // addresses of checksum fields and of what they cover, by place

    constructor (target: Target)
      ensures this.target == target && buf == [] && args == map[] && copyoutSeq == 0
    {
      this.target, buf, args, copyoutSeq, noted := target, [], map[], 0, map[];
    }

    /** write */
    method Write(v: uint64)
      requires IsVarint(target.codec)
      modifies this`buf
      ensures buf == old(buf) + target.codec.enc(v)
    {
      buf := AppendWord(target.codec, buf, v);
    }

    method WriteWords(ws: seq<uint64>)
      requires IsVarint(target.codec)
      modifies this`buf
      ensures buf == old(buf) + Words(target.codec, ws)
    {
      var i := 0;
      assert ws[..0] == [];
      while i < |ws|
        invariant 0 <= i <= |ws|
        invariant buf == old(buf) + Words(target.codec, ws[..i])
      {
        ManyConcat(target.codec.enc, ws[..i], [ws[i]]);
        assert ws[..i + 1] == ws[..i] + [ws[i]];
        assert Many(target.codec.enc, [ws[i]]) == target.codec.enc(ws[i]) + [];
        Write(ws[i]);
        i := i + 1;
      }
      assert ws[..i] == ws;
    }

    /** writeConstArg */
    method WriteConstArg(size: nat, val: uint64, bfOff: nat, bfLen: nat, pidStride: nat, format: nat)
      requires IsVarint(target.codec)
      modifies this`buf
      ensures buf == old(buf) + EncodeArg(target, Const(size, format, val, bfOff, bfLen, pidStride))
    {
      var meta := BitOr(BitOr(BitOr(BitOr(size, Shl(format, 8)), Shl(bfOff, 16)), Shl(bfLen, 24)), Shl(pidStride, 32));
      WriteWords([ARG_CONST, Wrap(meta), val]);
      assert ArgTail(target, Const(size, format, val, bfOff, bfLen, pidStride)) == [];
    }

    /** writeArg, case ResultArg */
    method WriteResult(a: PArg) returns (ok: bool, ghost x: Arg)
      requires IsVarint(target.codec) && a.PResult?
      modifies this`buf
      ensures Lower(args, a) == if ok then Some(x) else None
      ensures ok ==> buf == old(buf) + EncodeArg(target, x)
    {
      if a.res.None? {
        WriteConstArg(a.size, a.val, 0, 0, 0, a.format);
        return true, Const(a.size, a.format, a.val, 0, 0, 0);
      }
      if a.res.value !in args { return false, Addr(true, 0); }
      var idx := args[a.res.value].idx;
      var meta := BitOr(a.size, Shl(a.format, 8));
      WriteWords([ARG_RESULT, Wrap(meta), Wrap(idx), a.opDiv, a.opAdd, a.deflt]);
      x := Result(a.size, a.format, Wrap(idx), a.opDiv, a.opAdd, a.deflt);
      assert ArgTail(target, x) == [];
      return true, x;
    }

    /** writeArg, case PointerArg */
    method WritePointer(size: nat, addr: uint64) returns (ok: bool, ghost x: Arg)
      requires IsVarint(target.codec)
      modifies this`buf
      ensures ok <==> size == 4 || size == 8
      ensures ok ==> x == Addr(size == 8, addr) && buf == old(buf) + EncodeArg(target, x)
    {
      x := Addr(size == 8, addr);
      assert ArgTail(target, x) == [];
      if size == 4 {
        WriteWords([ARG_ADDR32, Wrap(addr - target.dataOffset)]);
      } else if size == 8 {
        WriteWords([ARG_ADDR64, Wrap(addr - target.dataOffset)]);
      } else {
        return false, x;
      }
      return true, x;
    }

    /** writeArg, case DataArg */
    method WriteData(data: seq<byte>, readable: bool) returns (ok: bool)
      requires IsVarint(target.codec)
      modifies this`buf
      ensures ok <==> |data| > 0
      ensures ok ==> buf == old(buf) + EncodeArg(target, Data(data, readable))
    {
      if |data| == 0 { return false; }
      var flags := |data|;
      if readable { flags := flags + READABLE; }
      WriteWords([ARG_DATA, Wrap(flags)]);
      ConcatAssoc(old(buf), Words(target.codec, [ARG_DATA, Wrap(flags)]), data);
      buf := buf + data;
      return true;
    }

    /** writeArg; false where the source panics */
    method WriteArg(a: PArg) returns (ok: bool, ghost x: Arg)
      requires IsVarint(target.codec)
      modifies this`buf
      ensures Lower(args, a) == if ok then Some(x) else None
      ensures ok ==> buf == old(buf) + EncodeArg(target, x)
      decreases a
    {
      match a {
        case PConst(_, _, _, _, size, format, val, off, len, pid) =>
          WriteConstArg(size, val, off, len, pid, format);
          return true, Const(size, format, val, off, len, pid);
        case PResult(_, _, _, _, _, _, _, _, _, _) => ok, x := WriteResult(a);
        case PPointer(size, _, addr, _) => ok, x := WritePointer(size, addr);
        case PData(_, _, data, readable) =>
          ok := WriteData(data, readable);
          return ok, Data(data, readable);
        case PUnion(_, _, o) => ok, x := WriteArg(o);
        case PGroup(_, _, _, _) => return false, Addr(true, 0);
      }
    }

    method EmitCopyin(addr: uint64, arg: PArg) returns (ok: bool, ghost x: Arg)
      requires IsVarint(target.codec)
      modifies this`buf
      ensures Lower(args, arg) == if ok then Some(x) else None
      ensures ok ==> buf == old(buf) + EncodeInstr(target, Copyin(addr, x))
    {
      WriteWords([INSTR_COPYIN, Wrap(addr - target.dataOffset)]);
      ok, x := WriteArg(arg);
      if ok { CopyinBytes(target, old(buf), addr, x); }
    }

    /** writeCopyin */
    method WriteCopyin(vs: seq<Visit>, marked: set<nat>) returns (ok: bool, ghost cs: seq<ExecCopyin<Arg>>)
      requires IsVarint(target.codec)
      modifies this`buf, this`args, this`noted
      ensures ok ==> Noted(noted, vs, marked, |vs|)
      ensures match ExecResources.WriteCopyin(old(args), vs)
              case None => !ok
              case Some(Copied(m, ds)) =>
                ok && cs == ds && args == m && buf == old(buf) + Bytes(target, CopyinInstrs(cs))
    {
      cs, noted := [], map[];
      assert CopyinInstrs(cs) == [];
      ghost var all := ExecResources.WriteCopyin(args, vs);
      assert all.Some? ==> [] + all.value.cs == all.value.cs;
      var i := 0;
      while i != |vs|
        invariant 0 <= i <= |vs| && Noted(noted, vs, marked, i)
        invariant Join(cs, ExecResources.WriteCopyin(args, vs[i..])) == all
        invariant buf == old(buf) + Bytes(target, CopyinInstrs(cs))
        decreases |vs| - i
      {
        assert vs[i..][0] == vs[i] && vs[i..][1..] == vs[i + 1..];
        JoinNext(args, vs[i..], cs);
        args := NoteAddr(args, vs[i]);
        if i in marked && vs[i].base.Some? { noted := noted[i := AddrOf(vs[i])]; }
        if Emitted(vs[i]) {
          ghost var x;
          ok, x := EmitCopyin(AddrOf(vs[i]), vs[i].arg);
          if !ok { return; }
          CopyinSnoc(target, cs, ExecCopyin(AddrOf(vs[i]), x));
          ConcatAssoc(old(buf), Bytes(target, CopyinInstrs(cs)), EncodeInstr(target, Copyin(AddrOf(vs[i]), x)));
          cs := cs + [ExecCopyin(AddrOf(vs[i]), x)];
        }
        i := i + 1;
      }
      assert cs + [] == cs;
      return true, cs;
    }

    /** writeCopyout */
    method WriteCopyout(vs: seq<Visit>) returns (ghost cs: seq<ExecCopyout>)
      requires IsVarint(target.codec)
      modifies this`buf, this`args, this`copyoutSeq
      ensures var out := ExecResources.WriteCopyout(target.dataOffset, old(args), old(copyoutSeq), vs);
              && cs == out.cs && args == out.m && copyoutSeq == out.seq_
              && buf == old(buf) + Bytes(target, CopyoutInstrs(cs))
    {
      cs := [];
      assert CopyoutInstrs(cs) == [];
      ghost var all := ExecResources.WriteCopyout(target.dataOffset, args, copyoutSeq, vs);
      assert [] + all.cs == all.cs;
      var i := 0;
      while i < |vs|
        invariant 0 <= i <= |vs|
        invariant var r := ExecResources.WriteCopyout(target.dataOffset, args, copyoutSeq,
                  vs[i..]); r.(cs := cs + r.cs) == all
        invariant buf == old(buf) + Bytes(target, CopyoutInstrs(cs))
      {
        assert vs[i..][0] == vs[i] && vs[i..][1..] == vs[i + 1..];
        var a := vs[i].arg;
        if Used(a) {
          var info := if a.id in args then args[a.id] else Info(target.dataOffset, 0, false);
          if !info.isRet {
            ghost var x := ExecCopyout(Wrap(copyoutSeq), info.addr, Wrap(a.size));
            ghost var rest := ExecResources.WriteCopyout(target.dataOffset, args[a.id := info.(idx := copyoutSeq)],
                copyoutSeq + 1, vs[i + 1..]);
            ConcatAssoc(cs, [x], rest.cs);
            args := args[a.id := info.(idx := copyoutSeq)];
            EmitCopyout(copyoutSeq, info.addr, a.size);
            copyoutSeq := copyoutSeq + 1;
            CopyoutSnoc(target, cs, x);
            ConcatAssoc(old(buf), Bytes(target, CopyoutInstrs(cs)),
                EncodeInstr(target, Copyout(x.index, x.addr, x.size)));
            cs := cs + [x];
          }
        }
        i := i + 1;
      }
      assert cs + [] == cs;
    }

    method EmitCopyout(idx: nat, addr: uint64, size: nat)
      requires IsVarint(target.codec)
      modifies this`buf
      ensures buf == old(buf) + EncodeInstr(target, Copyout(Wrap(idx), addr, Wrap(size)))
    {
      WriteWords([INSTR_COPYOUT, Wrap(idx), Wrap(addr - target.dataOffset), Wrap(size)]);
      assert InstrTail(target, Copyout(Wrap(idx), addr, Wrap(size))) == [];
    }

    /** The address noted for an argument; the zero of the source's map if there is none. */
    function NotedAddr(at: nat): uint64
      reads this`noted
    {
      if at in noted then noted[at] else target.dataOffset
    }

    /** writeChecksums */
    method WriteChecksums(vs: seq<Visit>, csums: seq<PCsum>)
      requires IsVarint(target.codec) && Noted(noted, vs, Places(csums), |vs|)
      modifies this`buf
      ensures buf == old(buf) + Bytes(target, CopyinInstrs(Checksums(target.dataOffset, vs, csums)))
    {
      ghost var z, all := target.dataOffset, Checksums(target.dataOffset, vs, csums);
      var sorted := SortFields(vs, csums);
      var i := |sorted|;
      ghost var cs: seq<ExecCopyin<Arg>> := [];
      CsumsStart(target, z, vs, sorted, all, buf);
      while i != 0
        invariant 0 <= i <= |sorted| && CsumsLeft(target, z, vs, sorted, i, cs, all, old(buf), buf)
        decreases i
      {
        i := i - 1;
        cs := NextCsum(vs, csums, sorted, i, z, cs, all, old(buf));
      }
      CsumsEnd(target, z, vs, sorted, cs, all, old(buf), buf);
    }

    method NextCsum(vs: seq<Visit>, ghost csums: seq<PCsum>, sorted: seq<PCsum>, i: nat, ghost z: uint64,
                    ghost cs: seq<ExecCopyin<Arg>>, ghost all: seq<ExecCopyin<Arg>>, ghost start: seq<byte>)
      returns (ghost cs': seq<ExecCopyin<Arg>>)
      requires IsVarint(target.codec) && Noted(noted, vs, Places(csums), |vs|) && z == target.dataOffset
      requires i < |sorted| && sorted[i] in csums && CsumsLeft(target, z, vs, sorted, i + 1, cs, all, start, buf)
      modifies this`buf
      ensures CsumsLeft(target, z, vs, sorted, i, cs', all, start, buf)
    {
      ghost var b := buf;
      WriteCsum(vs, sorted[i], csums);
      CsumNext(target, z, vs, sorted, i, cs, all, start, b, buf);
      cs' := cs + [LowerCsum(z, vs, sorted[i])];
    }

    /** The checksum fields in ascending order of the addresses noted for them. */
    method SortFields(vs: seq<Visit>, csums: seq<PCsum>) returns (sorted: seq<PCsum>)
      requires Noted(noted, vs, Places(csums), |vs|)
      ensures sorted == Sort(csums, FieldKey(target.dataOffset, vs))
      ensures forall i :: 0 <= i < |sorted| ==> sorted[i] in csums
    {
      var addrs, origin := noted, target.dataOffset;
      var key := (k: PCsum) => [if k.field in addrs then addrs[k.field] as int else origin as int];
      KeysAgree(noted, vs, csums, target.dataOffset, key);
      sorted := Sort(csums, key);
      forall i | 0 <= i < |sorted| ensures sorted[i] in csums { SortedPlace(csums, key, i); }
    }

    /** One checksum instruction. */
    method WriteCsum(vs: seq<Visit>, k: PCsum, ghost csums: seq<PCsum>)
      requires IsVarint(target.codec) && Noted(noted, vs, Places(csums), |vs|) && k in csums
      modifies this`buf
      ensures var x := LowerCsum(target.dataOffset, vs, k); buf == old(buf) + EncodeInstr(target, Copyin(x.addr, x.arg))
    {
      ghost var z, ks := target.dataOffset, LowerChunks(target.dataOffset, vs, k.chunks);
      var addr := NotedAddr(k.field);
      var size := if k.field < |vs| then Wrap(vs[k.field].arg.size) else 0;
      CsumIs(noted, vs, csums, k, z, addr, size);
      WriteWords([INSTR_COPYIN, Wrap(addr - target.dataOffset)]);
      ghost var b := buf;
      WriteWords([ARG_CSUM, size, CSUM_INET, Wrap(|k.chunks|)]);
      ghost var b' := buf;
      WriteChunks(vs, k, csums);
      CsumInstr(target, old(buf), b, b', buf, addr, size, ks, |k.chunks|);
    }

    method WriteChunks(vs: seq<Visit>, k: PCsum, ghost csums: seq<PCsum>)
      requires IsVarint(target.codec) && Noted(noted, vs, Places(csums), |vs|) && k in csums
      modifies this`buf
      ensures buf == old(buf) + Words(target.codec, ChunksWords(target, LowerChunks(target.dataOffset, vs, k.chunks)))
    {
      ghost var z := target.dataOffset;
      PlacesOf(csums, k);
      var i := 0;
      assert LowerChunks(z, vs, k.chunks[..0]) == [];
      while i < |k.chunks|
        invariant 0 <= i <= |k.chunks|
        invariant buf == old(buf) + Words(target.codec, ChunksWords(target, LowerChunks(z, vs, k.chunks[..i])))
      {
        ghost var b := buf;
        match k.chunks[i] {
          case ArgChunk(at) =>
            var size := if at < |vs| then Wrap(vs[at].arg.size) else 0;
            WriteWords([CHUNK_DATA, Wrap(NotedAddr(at) - target.dataOffset), size]);
          case ConstChunk(value, size) =>
            WriteWords([CHUNK_CONST, value, size]);
        }
        assert buf == b + Words(target.codec, ChunkWords(target, LowerChunk(z, vs, k.chunks[i])));
        ChunksNext(target, z, vs, k.chunks, i, old(buf));
        i := i + 1;
      }
      assert k.chunks[..i] == k.chunks;
    }

    /** writeCallProps, if the properties differ from the default */
    method WriteProps(p: Props)
      requires IsVarint(target.codec)
      modifies this`buf
      ensures buf == old(buf) + Bytes(target, PropsInstrs(p))
    {
      if p != NO_PROPS {
        var flag := if p.async then 1 else 0;
        WriteWords([INSTR_SETPROPS, p.failNth, flag, p.rerun]);
        ghost var x := SetProps(p.failNth, flag, p.rerun);
        assert InstrTail(target, x) == [];
        BytesSnoc(target, [], x);
        assert [] + [x] == [x];
      }
    }

    method WriteCallArgs(pargs: seq<PArg>) returns (ok: bool, ghost xs: seq<Arg>)
      requires IsVarint(target.codec)
      modifies this`buf
      ensures match LowerAll(args, pargs)
              case None => !ok
              case Some(ys) => ok && xs == ys && buf == old(buf) + Many(ArgEncoder(target), xs)
    {
      xs := [];
      ghost var all := LowerAll(args, pargs);
      assert all.Some? ==> [] + all.value == all.value;
      var i := 0;
      while i < |pargs|
        invariant 0 <= i <= |pargs|
        invariant JoinArgs(xs, LowerAll(args, pargs[i..])) == all
        invariant buf == old(buf) + Many(ArgEncoder(target), xs)
      {
        assert pargs[i..][0] == pargs[i] && pargs[i..][1..] == pargs[i + 1..];
        JoinArgsNext(args, pargs[i..], xs);
        ghost var x;
        ok, x := WriteArg(pargs[i]);
        if !ok { return; }
        ManyConcat(ArgEncoder(target), xs, [x]);
        assert Many(ArgEncoder(target), [x]) == EncodeArg(target, x) + [];
        ConcatAssoc(old(buf), Many(ArgEncoder(target), xs), EncodeArg(target, x));
        xs := xs + [x];
        i := i + 1;
      }
      assert xs + [] == xs;
      return true, xs;
    }

    /** Number, copyout index of the return value, and number of arguments of a call. */
    method WriteCallHead(c: PCall) returns (index: uint64)
      requires IsVarint(target.codec) && !(RetUsed(c) && c.ret.value.id in args)
      modifies this`buf, this`args, this`copyoutSeq
      ensures copyoutSeq == if RetUsed(c) then old(copyoutSeq) + 1 else old(copyoutSeq)
      ensures args == if RetUsed(c) then old(args)[c.ret.value.id := Info(target.dataOffset, old(copyoutSeq), true)]
              else old(args)
      ensures index == if RetUsed(c) then Wrap(old(copyoutSeq)) else NO_COPYOUT
      ensures buf == old(buf) + Words(target.codec, [c.id, index, Wrap(|c.args|)])
    {
      index := NO_COPYOUT;
      if RetUsed(c) {
        index := Wrap(copyoutSeq);
        args := args[c.ret.value.id := Info(target.dataOffset, copyoutSeq, true)];
        copyoutSeq := copyoutSeq + 1;
      }
      WriteWords([c.id, index, Wrap(|c.args|)]);
    }

    /** The call itself. */
    method WriteCall(c: PCall) returns (ok: bool, ghost xs: seq<Arg>, ghost index: uint64)
      requires IsVarint(target.codec) && |c.args| < TWO64 && !(RetUsed(c) && c.ret.value.id in args)
      modifies this`buf, this`args, this`copyoutSeq
      ensures copyoutSeq == if RetUsed(c) then old(copyoutSeq) + 1 else old(copyoutSeq)
      ensures args == if RetUsed(c) then old(args)[c.ret.value.id := Info(target.dataOffset, old(copyoutSeq), true)]
              else old(args)
      ensures index == if RetUsed(c) then Wrap(old(copyoutSeq)) else NO_COPYOUT
      ensures match LowerAll(args, c.args)
              case None => !ok
              case Some(ys) => ok && xs == ys && buf == old(buf) + EncodeInstr(target, Call(c.id, index, xs))
    {
      index := WriteCallHead(c);
      ok, xs := WriteCallArgs(c.args);
      LowerAllLength(args, c.args);
      if ok { CallBytes(target, old(buf), c.id, index, xs, |c.args|); }
    }

    /** What is copied in before a call: arguments in memory, then checksums. */
    method WriteInputs(c: PCall) returns (ok: bool, ghost cs: seq<ExecCopyin<Arg>>)
      requires IsVarint(target.codec)
      modifies this`buf, this`args, this`noted
      ensures match ExecResources.WriteCopyin(old(args), Visits(c))
              case None => !ok
              case Some(Copied(m, ds)) =>
                && ok && args == m && cs == ds + Checksums(target.dataOffset, Visits(c), c.csums)
                && buf == old(buf) + Bytes(target, CopyinInstrs(cs))
    {
      ok, cs := WriteCopyin(Visits(c), Places(c.csums));
      if !ok { return; }
      WriteChecksums(Visits(c), c.csums);
      ghost var sums := Checksums(target.dataOffset, Visits(c), c.csums);
      CopyinConcat(target, old(buf), cs, sums);
      cs := cs + sums;
    }

    /** The call with its copyouts, once everything is copied in. */
    method WriteRest(c: PCall, ghost n0: nat, ghost cs: seq<ExecCopyin<Arg>>)
      returns (ok: bool, ghost call: ExecCall<Arg>)
      requires IsVarint(target.codec) && |c.args| < TWO64 && n0 == copyoutSeq
      modifies this`buf, this`args, this`copyoutSeq
      ensures match RestOfCall(target.dataOffset, old(args), n0, c, cs)
              case None => !ok
              case Some(Serial(m, n, e)) =>
                && ok && args == m && copyoutSeq == n && call == e
                && old(buf) + Bytes(target, RestInstrs(e)) == buf
    {
      call := ExecCall([], NO_PROPS, 0, 0, [], []);
      ghost var xs, index, copyout;
      WriteProps(c.props);
      if RetUsed(c) && c.ret.value.id in args { return false, call; }
      ok, xs, index := WriteCall(c);
      if !ok { return; }
      copyout := WriteCopyout(Visits(c));
      call := ExecCall(cs, c.props, c.id, index, xs, copyout);
      BytesOfRest(target, old(buf), call);
    }

    /** serializeCall */
    method SerializeCall(c: PCall) returns (ok: bool, ghost call: ExecCall<Arg>)
      requires IsVarint(target.codec) && |c.args| < TWO64
      modifies this`buf, this`args, this`copyoutSeq, this`noted
      ensures match ExecResources.SerializeCall(target.dataOffset, old(args), old(copyoutSeq), c)
              case None => !ok
              case Some(Serial(m, n, e)) =>
                ok && args == m && copyoutSeq == n && call == e && buf == old(buf) + Bytes(target, CallInstrs(e))
    {
      call := ExecCall([], NO_PROPS, 0, 0, [], []);
      ghost var cs;
      ok, cs := WriteInputs(c);
      if !ok { return; }
      RestFollows(target.dataOffset, old(args), copyoutSeq, c, args);
      ok, call := WriteRest(c, copyoutSeq, cs);
      if ok { BytesOfCall(target, old(buf), call); }
    }

    /** writeKConfuzzConfigActions */
    method WriteActions(acts: seq<Action>)
      requires IsVarint(target.codec)
      modifies this`buf
      ensures buf == old(buf) + Bytes(target, ConfigInstrs(acts))
    {
      assert ConfigInstrs(acts[..0]) == [];
      var i := 0;
      while i < |acts|
        invariant 0 <= i <= |acts|
        invariant buf == old(buf) + Bytes(target, ConfigInstrs(acts[..i]))
      {
        var a := acts[i];
        WriteAction(a);
        ConfigSnoc(target, acts, i);
        ConcatAssoc(old(buf), Bytes(target, ConfigInstrs(acts[..i])),
            EncodeInstr(target, Config(a.param, a.value, a.flags)));
        i := i + 1;
      }
      assert acts[..i] == acts;
    }

    method WriteAction(a: Action)
      requires IsVarint(target.codec)
      modifies this`buf
      ensures buf == old(buf) + EncodeInstr(target, Config(a.param, a.value, a.flags))
    {
      WriteWords([INSTR_CONFIG, a.param, a.value, a.flags]);
      assert InstrTail(target, Config(a.param, a.value, a.flags)) == [];
    }

    /** A call with the actions in front of it. */
    method WriteOne(c: PCall, acts: seq<Action>) returns (ok: bool, ghost call: ExecCall<Arg>)
      requires IsVarint(target.codec) && |c.args| < TWO64
      modifies this`buf, this`args, this`copyoutSeq, this`noted
      ensures match ExecResources.SerializeCall(target.dataOffset, old(args), old(copyoutSeq), c)
              case None => !ok
              case Some(Serial(m, n, e)) =>
                && ok && args == m && copyoutSeq == n && call == e
                && buf == old(buf) + Bytes(target, ConfigInstrs(acts)) + Bytes(target, CallInstrs(e))
    {
      WriteActions(acts);
      ok, call := SerializeCall(c);
    }

    /** The calls with the actions in front of each. */
    method WriteCalls(p: seq<PCall>, m: map<nat, seq<Action>>, ghost acts: seq<Action>) returns (ok: bool)
      requires IsVarint(target.codec) && forall c :: c in p ==> |c.args| < TWO64
      requires SortedBuckets(m, acts)
      requires args == map[] && copyoutSeq == 0
      modifies this`buf, this`args, this`copyoutSeq, this`noted
      ensures match SerializeCalls(target.dataOffset, p)
              case None => !ok
              case Some(q) => ok && copyoutSeq == q.seq_ && buf == old(buf) + Bytes(target, Laid(q.calls, acts))
    {
      ghost var calls: seq<ExecCall<Arg>> := [];
      assert p[..0] == [];
      var i := 0;
      while i < |p|
        invariant 0 <= i <= |p| && |calls| == i
        invariant SerializeCalls(target.dataOffset, p[..i]) == Some(Program(args, copyoutSeq, calls))
        invariant buf == old(buf) + Bytes(target, Laid(calls, acts))
      {
        ghost var call;
        NextCall(target.dataOffset, p, i, args, copyoutSeq, calls);
        ok, call := WriteOne(p[i], Get(m, i));
        if !ok { NeverRecovers(target.dataOffset, p, i + 1); return; }
        LaidSnoc(target, calls, acts, call);
        Concat4(old(buf), Bytes(target, Laid(calls, acts)), Bytes(target, ConfigInstrs(ActionsAt(acts, i))),
                Bytes(target, CallInstrs(call)));
        calls := calls + [call];
        i := i + 1;
      }
      assert p[..i] == p;
      return true;
    }
  }

  lemma {:induction false} NextCall(z: uint64, p: seq<PCall>, i: nat, m: Infos, n: nat, calls: seq<ExecCall<Arg>>)
    requires i < |p| && SerializeCalls(z, p[..i]) == Some(Program(m, n, calls))
    ensures SerializeCalls(z, p[..i + 1]) ==
            match ExecResources.SerializeCall(z, m, n, p[i])
            case None => None
            case Some(Serial(m', n', call)) => Some(Program(m', n', calls + [call]))
  {
    assert p[..i + 1][..i] == p[..i] && p[..i + 1][i] == p[i];
  }

  lemma {:induction false} ConfigSnoc(t: Target, acts: seq<Action>, i: nat)
    requires i < |acts|
    ensures var a := acts[i];
            Bytes(t, ConfigInstrs(acts[..i + 1])) ==
            Bytes(t, ConfigInstrs(acts[..i])) + EncodeInstr(t, Config(a.param, a.value, a.flags))
  {
    var x := Config(acts[i].param, acts[i].value, acts[i].flags);
    assert ConfigInstrs(acts[..i + 1]) == ConfigInstrs(acts[..i]) + [x];
    BytesSnoc(t, ConfigInstrs(acts[..i]), x);
  }

  /** The stream up to the end of the last of the given calls. */
  function Laid(calls: seq<ExecCall<Arg>>, acts: seq<Action>): seq<Instr<Arg>> {
    if |calls| == 0 then []
    else
      var n := |calls| - 1;
      Laid(calls[..n], acts) + (ConfigInstrs(ActionsAt(acts, n)) + CallInstrs(calls[n]))
  }

  lemma {:induction false} LaidSnoc(t: Target, calls: seq<ExecCall<Arg>>, acts: seq<Action>, call: ExecCall<Arg>)
    ensures Bytes(t, Laid(calls + [call], acts)) ==
            Bytes(t, Laid(calls, acts)) + Bytes(t, ConfigInstrs(ActionsAt(acts, |calls|))) + Bytes(t, CallInstrs(call))
  {
    var a, b, c := Laid(calls, acts), ConfigInstrs(ActionsAt(acts, |calls|)), CallInstrs(call);
    assert (calls + [call])[..|calls|] == calls;
    ManyConcat(InstrEncoder(t), a, b + c);
    ManyConcat(InstrEncoder(t), b, c);
    ConcatAssoc(Bytes(t, a), Bytes(t, b), Bytes(t, c));
  }

  lemma {:induction false} LaidIsLayout(calls: seq<ExecCall<Arg>>, acts: seq<Action>, i: nat)
    requires i <= |calls|
    ensures Laid(calls[..i], acts) + Layout(calls, acts, i) == Layout(calls, acts, 0)
  {
    if i > 0 {
      LaidIsLayout(calls, acts, i - 1);
      assert calls[..i][..i - 1] == calls[..i - 1];
      var a, b := Laid(calls[..i - 1], acts), ConfigInstrs(ActionsAt(acts, i - 1));
      var c, d := CallInstrs(calls[i - 1]), Layout(calls, acts, i);
      assert a + (b + c) + d == a + (b + (c + d));
    }
  }

  lemma {:induction false} NeverRecovers(z: uint64, p: seq<PCall>, k: nat)
    requires k <= |p| && SerializeCalls(z, p[..k]).None?
    ensures SerializeCalls(z, p).None?
    decreases |p|
  {
    if k < |p| {
      assert p[..|p| - 1][..k] == p[..k];
      NeverRecovers(z, p[..|p| - 1], k);
    } else {
      assert p[..k] == p;
    }
  }

  lemma {:induction false} Concat4<T>(a: seq<T>, b: seq<T>, c: seq<T>, d: seq<T>)
    ensures a + b + c + d == a + (b + c + d)
  {
  }

  function Get(m: map<nat, seq<Action>>, i: nat): seq<Action> {
    if i in m then m[i] else []
  }

  predicate InRange(acts: seq<Action>, n: nat) {
    forall a :: a in acts ==> 0 <= a.before <= n
  }

  ghost predicate Buckets(m: map<nat, seq<Action>>, acts: seq<Action>) {
    forall i: nat :: Get(m, i) == Group(acts, BeforeKey(), [i])
  }

  ghost predicate SortedBuckets(m: map<nat, seq<Action>>, acts: seq<Action>) {
    forall i: nat :: Get(m, i) == ActionsAt(acts, i)
  }

  lemma {:induction false} BucketsSnoc(m: map<nat, seq<Action>>, acts: seq<Action>, a: Action)
    requires Buckets(m, acts) && a.before >= 0
    ensures Buckets(m[a.before := Get(m, a.before) + [a]], acts + [a])
  {
    assert (acts + [a])[..|acts|] == acts;
    forall i: nat ensures [a.before] == [i] <==> a.before == i {
      assert [a.before][0] == a.before && [i][0] == i;
    }
  }

  /** The actions of each call, in the order given. */
  method Bucket(acts: seq<Action>, n: nat) returns (ok: bool, m: map<nat, seq<Action>>)
    ensures ok <==> InRange(acts, n)
    ensures ok ==> Buckets(m, acts)
  {
    m := map[];
    var j := 0;
    while j < |acts|
      invariant 0 <= j <= |acts|
      invariant InRange(acts[..j], n)
      invariant Buckets(m, acts[..j])
    {
      var a := acts[j];
      if a.before < 0 || a.before > n { return false, m; }
      assert acts[..j + 1] == acts[..j] + [a];
      BucketsSnoc(m, acts[..j], a);
      m := m[a.before := Get(m, a.before) + [a]];
      j := j + 1;
    }
    assert acts[..j] == acts;
    return true, m;
  }

  /** Sorts each call's actions in place; the calls come in any order. */
  method SortBuckets(m: map<nat, seq<Action>>, ghost acts: seq<Action>) returns (r: map<nat, seq<Action>>)
    requires Buckets(m, acts)
    ensures SortedBuckets(r, acts)
  {
    r := m;
    var todo := m.Keys;
    while todo != {}
      invariant forall i: nat :: i in todo ==> i in r
      invariant forall i: nat :: Get(r, i) == if i in todo then Group(acts, BeforeKey(), [i]) else ActionsAt(acts, i)
      decreases |todo|
    {
      var call: nat :| call in todo;
      assert r[call] == Get(r, call);
      r := r[call := Sort(r[call], ParamKey())];
      todo := todo - {call};
    }
  }

  datatype Written = Written(data: seq<byte>) | BadAction | Panic | TooLarge | TooManyResources

  /** SerializeForExecWithKConfuzz */
  method SerializeForExec(t: Target, p: seq<PCall>, acts: seq<Action>) returns (r: Written)
    requires IsVarint(t.codec) && forall c :: c in p ==> |c.args| < TWO64
    ensures !InRange(acts, |p|) ==> r == BadAction
    ensures InRange(acts, |p|) ==>
              match SerializeCalls(t.dataOffset, p)
              case None => r == Panic
              case Some(Program(_, n, calls)) =>
                var data := Serialize(t, calls, acts);
                r == if |data| > MAX_BUFFER then TooLarge
                     else if n > MAX_COMMANDS then TooManyResources
                     else Written(data)
  {
    var w := new ExecContext(t);
    var ok, m := Bucket(acts, |p|);
    if !ok { return BadAction; }
    m := SortBuckets(m, acts);
    w.Write(Wrap(|p|));
    ok := w.WriteCalls(p, m, acts);
    if !ok { return Panic; }
    w.WriteActions(Get(m, |p|));
    w.Write(INSTR_EOF);
    Finished(t, p, acts);
    assert [] + t.codec.enc(Wrap(|p|)) == t.codec.enc(Wrap(|p|));
    assert w.buf == Serialize(t, SerializeCalls(t.dataOffset, p).value.calls, acts);
    if |w.buf| > MAX_BUFFER { return TooLarge; }
    if w.copyoutSeq > MAX_COMMANDS { return TooManyResources; }
    return Written(w.buf);
  }

  lemma {:induction false} Finished(t: Target, p: seq<PCall>, acts: seq<Action>)
    requires SerializeCalls(t.dataOffset, p).Some?
    ensures var calls := SerializeCalls(t.dataOffset, p).value.calls;
            && |calls| == |p|
            && Serialize(t, calls, acts) ==
               t.codec.enc(Wrap(|p|)) + Bytes(t, Laid(calls, acts)) +
               Bytes(t, ConfigInstrs(ActionsAt(acts, |p|))) + t.codec.enc(INSTR_EOF)
  {
    OneCallEach(t.dataOffset, p);
    var calls := SerializeCalls(t.dataOffset, p).value.calls;
    FinishedBytes(t, calls, acts, |p|);
    Concat4(t.codec.enc(Wrap(|p|)), Bytes(t, Laid(calls, acts)), Bytes(t, ConfigInstrs(ActionsAt(acts, |p|))),
            t.codec.enc(INSTR_EOF));
  }

  lemma {:induction false} FinishedBytes(t: Target, calls: seq<ExecCall<Arg>>, acts: seq<Action>, n: nat)
    requires n == |calls|
    ensures Bytes(t, Layout(calls, acts, 0)) ==
            Bytes(t, Laid(calls, acts)) + Bytes(t, ConfigInstrs(ActionsAt(acts, n))) + t.codec.enc(INSTR_EOF)
  {
    LaidIsLayout(calls, acts, n);
    assert calls[..n] == calls;
    var a, b := Laid(calls, acts), ConfigInstrs(ActionsAt(acts, n));
    assert Layout(calls, acts, n) == b + [Eof];
    ManyConcat(InstrEncoder(t), a, b + [Eof]);
    BytesSnoc(t, b, Eof);
    EofBytes(t);
    ConcatAssoc(Bytes(t, a), Bytes(t, b), EncodeInstr(t, Eof));
  }

  lemma {:induction false} EofBytes(t: Target)
    ensures EncodeInstr(t, Eof) == t.codec.enc(INSTR_EOF)
  {
    assert InstrWords(t, Eof) == [INSTR_EOF] && InstrTail(t, Eof) == [];
    assert Many(t.codec.enc, [INSTR_EOF]) == t.codec.enc(INSTR_EOF) + Many(t.codec.enc, []);
  }

  lemma {:induction false} OneCallEach(z: uint64, p: seq<PCall>)
    requires SerializeCalls(z, p).Some?
    ensures |SerializeCalls(z, p).value.calls| == |p|
  {
    if |p| > 0 { OneCallEach(z, p[..|p| - 1]); }
  }

  lemma {:induction false} CallBytes(t: Target, b: seq<byte>, id: uint64, index: uint64, xs: seq<Arg>, n: nat)
    requires |xs| == n
    ensures b + Words(t.codec, [id, index, Wrap(n)]) + Many(ArgEncoder(t), xs) ==
            b + EncodeInstr(t, Call(id, index, xs))
  {
    ConcatAssoc(b, Words(t.codec, [id, index, Wrap(n)]), Many(ArgEncoder(t), xs));
  }
}
