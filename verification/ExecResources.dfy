/**
 Result indices in serialized programs (prog/encodingexec.go): which values a call copies out,
 which index each gets, and which index a later argument refers to.
 Arguments that produce or use a resource carry an identity, as the Go pointers do.
 */
module ExecResources {
  import opened Basics
  import opened Counting
  import opened Bits
  import opened Varint
  import opened ExecFormat
  import opened StableOrder
  import opened ExecStream

  datatype Dir = In | Out | InOut

  datatype PArg =
    | PConst(size: nat, dir: Dir, pad: bool, unitOff: nat, unitSize: nat,
             format: nat, val: uint64, bfOff: nat, bfLen: nat, pidStride: nat)
    | PResult(size: nat, dir: Dir, id: nat, uses: set<nat>, res: Option<nat>,
              format: nat, val: uint64, opDiv: uint64, opAdd: uint64, deflt: uint64)
    | PPointer(size: nat, dir: Dir, addr: uint64, pointee: Option<PArg>)
    | PData(size: nat, dir: Dir, data: seq<byte>, readable: bool)
    | PGroup(size: nat, dir: Dir, inner: seq<PArg>, overlay: nat)
    | PUnion(size: nat, dir: Dir, option: PArg)

  /** What a checksum covers: an argument, named by its place in the traversal, or a constant. */
  datatype PChunk = ArgChunk(at: nat) | ConstChunk(value: uint64, size: uint64)

  /** A checksum field, named by its place in the traversal, and what calcChecksumsCall finds for it. */
  datatype PCsum = PCsum(field: nat, chunks: seq<PChunk>)

  /** A call; the checksums are in any order, as the source keeps them in a map. */
  datatype PCall = PCall(ret: Option<PArg>, id: uint64, props: Props, args: seq<PArg>, csums: seq<PCsum>)

  // ----- traversal (foreachArgImpl): the argument, the heap object it is in, its offset there -----

  datatype Visit = Visit(arg: PArg, base: Option<uint64>, off: nat)

  function VisitArg(a: PArg, base: Option<uint64>, off: nat): seq<Visit>
    decreases a
  {
    [Visit(a, base, off)] +
    match a
    case PPointer(_, _, addr, Some(p)) => VisitArg(p, Some(addr), 0)
    case PGroup(_, _, inner, overlay) => VisitFields(inner, base, off, off, overlay)
    case PUnion(_, _, o) => VisitArg(o, base, off)
    case _ => []
  }

  /** Fields one behind the other from off on, and from start again at the k-th of them. */
  function VisitFields(fs: seq<PArg>, base: Option<uint64>, start: nat, off: nat, k: int): seq<Visit>
    decreases fs
  {
    if |fs| == 0 then []
    else
      var o := if k == 0 then start else off;
      VisitArg(fs[0], base, o) + VisitFields(fs[1..], base, start, o + fs[0].size, k - 1)
  }

  function VisitArgs(args: seq<PArg>): seq<Visit> {
    if |args| == 0 then [] else VisitArg(args[0], None, 0) + VisitArgs(args[1..])
  }

  /** ForeachArg: the return value, then the arguments. */
  function Visits(c: PCall): seq<Visit> {
    (if c.ret.Some? then VisitArg(c.ret.value, None, 0) else []) + VisitArgs(c.args)
  }

  // ----- the writer's bookkeeping -----

  datatype Info = Info(addr: uint64, idx: nat, isRet: bool)

  type Infos = map<nat, Info>

  predicate Used(a: PArg) { a.PResult? && a.uses != {} }

  function AddrOf(v: Visit): uint64
    requires v.base.Some?
  {
    Wrap(v.base.value + v.off - if v.arg.PConst? then v.arg.unitOff else 0)
  }

  /** A resource in memory that will be used later has its address noted before the call. */
  function NoteAddr(m: Infos, v: Visit): Infos {
    if v.base.Some? && Used(v.arg) then m[v.arg.id := Info(AddrOf(v), 0, false)] else m
  }

  predicate IsBitfield(a: PArg) { a.PConst? && a.bfLen != 0 }

  /** Arguments in memory that are written before the call. */
  predicate Emitted(v: Visit) {
    && v.base.Some? && !v.arg.PGroup? && !v.arg.PUnion?
    && v.arg.dir != Out && !(v.arg.PConst? && v.arg.pad) && (v.arg.size != 0 || IsBitfield(v.arg))
  }

  /** writeArg; None where the source panics. */
  function Lower(m: Infos, a: PArg): Option<Arg>
    decreases a
  {
    match a
    case PConst(_, _, _, _, size, format, val, off, len, pid) => Some(Const(size, format, val, off, len, pid))
    case PResult(size, _, _, _, res, format, val, div, add, d) =>
      if res.None? then Some(Const(size, format, val, 0, 0, 0))
      else if res.value !in m then None
      else Some(Result(size, format, Wrap(m[res.value].idx), div, add, d))
    case PPointer(size, _, addr, _) => if size == 4 || size == 8 then Some(Addr(size == 8, addr)) else None
    case PData(_, _, data, readable) => if |data| == 0 then None else Some(Data(data, readable))
    case PUnion(_, _, o) => Lower(m, o)
    case PGroup(_, _, _, _) => None
  }

  datatype Copied = Copied(m: Infos, cs: seq<ExecCopyin<Arg>>)

  /** writeCopyin */
  function WriteCopyin(m: Infos, vs: seq<Visit>): Option<Copied>
    decreases |vs|
  {
    if |vs| == 0 then Some(Copied(m, []))
    else
      var v := vs[0];
      var m' := NoteAddr(m, v);
      match WriteCopyin(m', vs[1..])
      case None => None
      case Some(Copied(m'', cs)) =>
        if !Emitted(v) then Some(Copied(m'', cs))
        else
          match Lower(m', v.arg)
          case None => None
          case Some(a) => Some(Copied(m'', [ExecCopyin(AddrOf(v), a)] + cs))
  }

  // ----- checksums -----

  /** Where a visited argument lies; z, the address that 0 stands for, if it is not in memory. */
  function Home(z: uint64, v: Visit): uint64 { if v.base.Some? then AddrOf(v) else z }

  function HomeAt(z: uint64, vs: seq<Visit>, j: nat): uint64 { if j < |vs| then Home(z, vs[j]) else z }

  function SizeAt(vs: seq<Visit>, j: nat): uint64 { if j < |vs| then Wrap(vs[j].arg.size) else 0 }

  function LowerChunk(z: uint64, vs: seq<Visit>, k: PChunk): Chunk {
    match k
    case ArgChunk(j) => Chunk(CHUNK_DATA, HomeAt(z, vs, j), SizeAt(vs, j))
    case ConstChunk(value, size) => Chunk(CHUNK_CONST, value, size)
  }

  function LowerChunks(z: uint64, vs: seq<Visit>, ks: seq<PChunk>): seq<Chunk> {
    seq(|ks|, i requires 0 <= i < |ks| => LowerChunk(z, vs, ks[i]))
  }

  function LowerCsum(z: uint64, vs: seq<Visit>, k: PCsum): ExecCopyin<Arg> {
    ExecCopyin(HomeAt(z, vs, k.field), Csum(SizeAt(vs, k.field), LowerChunks(z, vs, k.chunks)))
  }

  function FieldKey(z: uint64, vs: seq<Visit>): PCsum -> seq<int> { (k: PCsum) => [HomeAt(z, vs, k.field) as int] }

  function FromLast(z: uint64, vs: seq<Visit>, ks: seq<PCsum>): (r: seq<ExecCopyin<Arg>>)
    ensures |r| == |ks|
  {
    if |ks| == 0 then [] else [LowerCsum(z, vs, ks[|ks| - 1])] + FromLast(z, vs, ks[..|ks| - 1])
  }

  /** writeChecksums: sorted by address and written from the last on. */
  function Checksums(z: uint64, vs: seq<Visit>, ks: seq<PCsum>): seq<ExecCopyin<Arg>> {
    FromLast(z, vs, Sort(ks, FieldKey(z, vs)))
  }

  lemma {:induction false} FromLastAt(z: uint64, vs: seq<Visit>, ks: seq<PCsum>, i: nat)
    requires i < |ks|
    ensures FromLast(z, vs, ks)[i] == LowerCsum(z, vs, ks[|ks| - 1 - i])
  {
    if i > 0 { FromLastAt(z, vs, ks[..|ks| - 1], i - 1); }
  }

  /** Every checksum is written once, with those at higher addresses first: a sum covers finished sums behind it. */
  lemma {:induction false} ChecksumsDescend(z: uint64, vs: seq<Visit>, ks: seq<PCsum>) returns (sorted: seq<PCsum>)
    ensures multiset(sorted) == multiset(ks) && |sorted| == |Checksums(z, vs, ks)|
    ensures forall i :: 0 <= i < |sorted| ==> Checksums(z, vs, ks)[i] == LowerCsum(z, vs, sorted[|sorted| - 1 - i])
    ensures forall i, j :: 0 <= i < j < |sorted| ==> Checksums(z, vs, ks)[i].addr >= Checksums(z, vs, ks)[j].addr
  {
    sorted := Sort(ks, FieldKey(z, vs));
    SortIsStable(ks, FieldKey(z, vs));
    SortBag(ks, FieldKey(z, vs));
    FromLastDescends(z, vs, sorted);
  }

  lemma {:induction false} FromLastDescends(z: uint64, vs: seq<Visit>, ks: seq<PCsum>)
    requires Sorted(ks, FieldKey(z, vs))
    ensures forall i :: 0 <= i < |ks| ==> FromLast(z, vs, ks)[i] == LowerCsum(z, vs, ks[|ks| - 1 - i])
    ensures forall i, j :: 0 <= i < j < |ks| ==> FromLast(z, vs, ks)[i].addr >= FromLast(z, vs, ks)[j].addr
  {
    var n := |ks|;
    forall i | 0 <= i < n ensures FromLast(z, vs, ks)[i] == LowerCsum(z, vs, ks[n - 1 - i]) {
      FromLastAt(z, vs, ks, i);
    }
    forall i, j | 0 <= i < j < n ensures FromLast(z, vs, ks)[i].addr >= FromLast(z, vs, ks)[j].addr {
      assert !Less(FieldKey(z, vs)(ks[n - 1 - i]), FieldKey(z, vs)(ks[n - 1 - j]));
    }
  }

  lemma {:induction false} ChecksumsAreSums(z: uint64, vs: seq<Visit>, ks: seq<PCsum>)
    ensures forall x :: x in FromLast(z, vs, ks) ==> x.arg.Csum?
  {
    if |ks| > 0 { ChecksumsAreSums(z, vs, ks[..|ks| - 1]); }
  }

  // ----- the call -----

  function LowerAll(m: Infos, args: seq<PArg>): Option<seq<Arg>> {
    if |args| == 0 then Some([])
    else
      match Lower(m, args[0])
      case None => None
      case Some(a) =>
        match LowerAll(m, args[1..])
        case None => None
        case Some(rest) => Some([a] + rest)
  }

  datatype Outs = Outs(m: Infos, seq_: nat, cs: seq<ExecCopyout>)

  /** writeCopyout: one index per used resource, except the return value, which has its own. */
  function WriteCopyout(z: uint64, m: Infos, n: nat, vs: seq<Visit>): Outs
    decreases |vs|
  {
    if |vs| == 0 then Outs(m, n, [])
    else
      var a := vs[0].arg;
      if !Used(a) then WriteCopyout(z, m, n, vs[1..])
      else
        var info := if a.id in m then m[a.id] else Info(z, 0, false);
        if info.isRet then WriteCopyout(z, m, n, vs[1..])
        else
          var r := WriteCopyout(z, m[a.id := info.(idx := n)], n + 1, vs[1..]);
          r.(cs := [ExecCopyout(Wrap(n), info.addr, Wrap(a.size))] + r.cs)
  }

  /** Bookkeeping after a call, and the call as it goes into the stream. */
  datatype Serial = Serial(m: Infos, seq_: nat, call: ExecCall<Arg>)

  function RetUsed(c: PCall): bool { c.ret.Some? && Used(c.ret.value) }

  /** serializeCall; None where the source panics. */
  function SerializeCall(z: uint64, m: Infos, n: nat, c: PCall): Option<Serial> {
    match WriteCopyin(m, Visits(c))
    case None => None
    case Some(Copied(m1, copyin)) =>
      if RetUsed(c) && c.ret.value.id in m1 then None else
      var m2 := if RetUsed(c) then m1[c.ret.value.id := Info(z, n, true)] else m1;
      var n2 := if RetUsed(c) then n + 1 else n;
      match LowerAll(m2, c.args)
      case None => None
      case Some(args) =>
        var out := WriteCopyout(z, m2, n2, Visits(c));
        Some(Serial(out.m, out.seq_,
                    ExecCall(copyin + Checksums(z, Visits(c), c.csums), c.props, c.id,
                             if RetUsed(c) then Wrap(n) else NO_COPYOUT, args, out.cs)))
  }

  datatype Program = Program(m: Infos, seq_: nat, calls: seq<ExecCall<Arg>>)

  function SerializeCalls(z: uint64, cs: seq<PCall>): Option<Program> {
    if |cs| == 0 then Some(Program(map[], 0, []))
    else
      match SerializeCalls(z, cs[..|cs| - 1])
      case None => None
      case Some(Program(m, n, calls)) =>
        match SerializeCall(z, m, n, cs[|cs| - 1])
        case None => None
        case Some(Serial(m', n', call)) => Some(Program(m', n', calls + [call]))
  }

  // ----- what is promised -----

  /** Identities of the used resources of a list of visits, in visiting order. */
  function UsedIds(vs: seq<Visit>): seq<nat> {
    if |vs| == 0 then [] else (if Used(vs[0].arg) then [vs[0].arg.id] else []) + UsedIds(vs[1..])
  }

  /** Resources that call c makes available, in index order: the return value comes first anyway. */
  function Produced(c: PCall): seq<nat> { UsedIds(Visits(c)) }

  function AllProduced(cs: seq<PCall>): seq<nat> {
    if |cs| == 0 then [] else AllProduced(cs[..|cs| - 1]) + Produced(cs[|cs| - 1])
  }

  /** The writer's map gives the j-th produced resource index j. */
  predicate Indexed(m: Infos, ids: seq<nat>) {
    forall j :: 0 <= j < |ids| ==> ids[j] in m && m[ids[j]].idx == j
  }

  /** Resources that the arguments of a visit list refer to. */
  predicate RefsIn(vs: seq<Visit>, ids: seq<nat>) {
    forall v :: v in vs && v.arg.PResult? && v.arg.res.Some? ==> v.arg.res.value in ids
  }

  /** The argument has a register form: no group, pointers of a known width, no empty blob. */
  predicate Lowerable(a: PArg)
    decreases a
  {
    match a
    case PPointer(size, _, _, _) => size == 4 || size == 8
    case PData(_, _, data, _) => |data| != 0
    case PGroup(_, _, _, _) => false
    case PUnion(_, _, o) => Lowerable(o)
    case _ => true
  }

  predicate WellShaped(c: PCall) {
    && (c.ret.Some? ==> c.ret.value.PResult?)
    && (forall a :: a in c.args ==> Lowerable(a))
    && (forall v :: v in Visits(c) && Emitted(v) ==> Lowerable(v.arg))
  }

  /** Resources have one identity each, and references go to resources of earlier calls. */
  predicate WellFormed(cs: seq<PCall>) {
    && Distinct(AllProduced(cs))
    && (forall k :: 0 <= k < |cs| ==> WellShaped(cs[k]) && RefsIn(Visits(cs[k]), AllProduced(cs[..k])))
  }

  predicate Agree(m: Infos, m': Infos, ids: seq<nat>) {
    forall id :: id in ids ==> id in m && id in m' && m'[id] == m[id]
  }

  // ----- lowering depends only on the resources referred to -----

  predicate RefsOk(m: Infos, a: PArg)
    decreases a
  {
    match a
    case PResult(_, _, _, _, res, _, _, _, _, _) => res.Some? ==> res.value in m
    case PUnion(_, _, o) => RefsOk(m, o)
    case _ => true
  }

  lemma {:induction false} RefsOkFromVisits(m: Infos, a: PArg, base: Option<uint64>, off: nat, ids: seq<nat>)
    requires RefsIn(VisitArg(a, base, off), ids) && forall id :: id in ids ==> id in m
    ensures RefsOk(m, a)
    decreases a
  {
    assert VisitArg(a, base, off)[0] == Visit(a, base, off);
    assert Visit(a, base, off) in VisitArg(a, base, off);
    if a.PUnion? {
      assert forall v :: v in VisitArg(a.option, base, off) ==> v in VisitArg(a, base, off);
      RefsOkFromVisits(m, a.option, base, off, ids);
    }
  }

  lemma {:induction false} LowerAgrees(m: Infos, m': Infos, a: PArg, base: Option<uint64>, off: nat, ids: seq<nat>)
    requires RefsIn(VisitArg(a, base, off), ids) && Agree(m, m', ids)
    ensures Lower(m, a) == Lower(m', a)
    ensures Lowerable(a) ==> Lower(m, a).Some?
    decreases a
  {
    assert VisitArg(a, base, off)[0] == Visit(a, base, off);
    assert Visit(a, base, off) in VisitArg(a, base, off);
    if a.PUnion? {
      assert forall v :: v in VisitArg(a.option, base, off) ==> v in VisitArg(a, base, off);
      LowerAgrees(m, m', a.option, base, off, ids);
    }
  }

  lemma {:induction false} LowerAllAgrees(m: Infos, m': Infos, args: seq<PArg>, ids: seq<nat>)
    requires RefsIn(VisitArgs(args), ids) && Agree(m, m', ids)
    requires forall a :: a in args ==> Lowerable(a)
    ensures LowerAll(m, args) == LowerAll(m', args) && LowerAll(m, args).Some?
  {
    if |args| > 0 {
      assert forall v :: v in VisitArg(args[0], None, 0) ==> v in VisitArgs(args);
      assert forall v :: v in VisitArgs(args[1..]) ==> v in VisitArgs(args);
      LowerAgrees(m, m', args[0], None, 0, ids);
      LowerAllAgrees(m, m', args[1..], ids);
    }
  }

  lemma {:induction false} LowerAllLength(m: Infos, args: seq<PArg>)
    ensures LowerAll(m, args).Some? ==> |LowerAll(m, args).value| == |args|
  {
    if |args| > 0 { LowerAllLength(m, args[1..]); }
  }

  // ----- copyin -----

  /** What is written to memory before the call, every reference looked up in one and the same map. */
  function MemoryWrites(m: Infos, vs: seq<Visit>): Option<seq<ExecCopyin<Arg>>>
    decreases |vs|
  {
    if |vs| == 0 then Some([])
    else if !Emitted(vs[0]) then MemoryWrites(m, vs[1..])
    else
      match (Lower(m, vs[0].arg), MemoryWrites(m, vs[1..]))
      case (Some(a), Some(cs)) => Some([ExecCopyin(AddrOf(vs[0]), a)] + cs)
      case _ => None
  }

  lemma {:induction false} MemoryWritesAgree(m: Infos, m': Infos, vs: seq<Visit>, ids: seq<nat>)
    requires RefsIn(vs, ids) && Agree(m, m', ids)
    ensures MemoryWrites(m, vs) == MemoryWrites(m', vs)
    decreases |vs|
  {
    if |vs| > 0 {
      assert vs[0] in vs && forall w :: w in vs[1..] ==> w in vs;
      MemoryWritesAgree(m, m', vs[1..], ids);
    }
  }

  lemma {:induction false} UsedIdsMember(vs: seq<Visit>, i: nat)
    requires i < |vs| && Used(vs[i].arg)
    ensures vs[i].arg.id in UsedIds(vs)
  {
    if i > 0 { UsedIdsMember(vs[1..], i - 1); }
  }

  /** Before the call, only this call's own resources are noted, none of them as return value. */
  lemma {:induction false} CopyinKeeps(m: Infos, vs: seq<Visit>, ids: seq<nat>)
    requires RefsIn(vs, ids) && (forall id :: id in ids ==> id in m)
    requires forall v :: v in vs && Emitted(v) ==> Lowerable(v.arg)
    requires forall id :: id in UsedIds(vs) ==> id !in ids
    ensures var r := WriteCopyin(m, vs);
            && r.Some?
            && Agree(m, r.value.m, ids)
            && Some(r.value.cs) == MemoryWrites(m, vs)
            && (forall id :: id in r.value.m ==>
                  || (id in m && r.value.m[id] == m[id])
                  || (id in UsedIds(vs) && !r.value.m[id].isRet))
            && (forall id :: id in m && id !in UsedIds(vs) ==> id in r.value.m && r.value.m[id] == m[id])
    decreases |vs|
  {
    if |vs| > 0 {
      var v, rest := vs[0], vs[1..];
      var m' := NoteAddr(m, v);
      assert v in vs && forall w :: w in rest ==> w in vs;
      assert forall id :: id in UsedIds(rest) ==> id in UsedIds(vs);
      CopyinKeeps(m', rest, ids);
      MemoryWritesAgree(m, m', rest, ids);
      if Emitted(v) {
        LowerLeaf(m', v.arg);
      }
    }
  }

  /** An emitted argument is a leaf, so its own reference is all it needs. */
  lemma {:induction false} LowerLeaf(m: Infos, a: PArg)
    requires !a.PGroup? && !a.PUnion? && Lowerable(a)
    requires a.PResult? && a.res.Some? ==> a.res.value in m
    ensures Lower(m, a).Some?
  {
  }

  // ----- copyout -----

  predicate Consecutive(cs: seq<ExecCopyout>, n: nat) {
    forall j :: 0 <= j < |cs| ==> cs[j].index == Wrap(n + j)
  }

  predicate IndexedFrom(m: Infos, ids: seq<nat>, n: nat) {
    forall j :: 0 <= j < |ids| ==> ids[j] in m && m[ids[j]].idx == n + j
  }

  ghost predicate SameElsewhere(m: Infos, m': Infos, ids: seq<nat>) {
    forall id :: id !in ids ==> (id in m' <==> id in m) && (id in m ==> m'[id] == m[id])
  }

  lemma {:induction false} IndexedCons(m: Infos, ids: seq<nat>, n: nat)
    requires |ids| > 0 && ids[0] in m && m[ids[0]].idx == n && IndexedFrom(m, ids[1..], n + 1)
    ensures IndexedFrom(m, ids, n)
  {
    forall j | 0 <= j < |ids| ensures ids[j] in m && m[ids[j]].idx == n + j {
      if j > 0 { assert ids[j] == ids[1..][j - 1]; }
    }
  }

  lemma {:induction false} ConsecutiveCons(c: ExecCopyout, cs: seq<ExecCopyout>, n: nat)
    requires c.index == Wrap(n) && Consecutive(cs, n + 1)
    ensures Consecutive([c] + cs, n)
  {
    forall j | 0 <= j < |cs| + 1 ensures ([c] + cs)[j].index == Wrap(n + j) {
      if j > 0 { assert ([c] + cs)[j] == cs[j - 1] && n + 1 + (j - 1) == n + j; }
    }
  }

  lemma {:induction false} DistinctTail(ids: seq<nat>)
    requires |ids| > 0 && Distinct(ids)
    ensures Distinct(ids[1..]) && ids[0] !in ids[1..]
  {
    assert forall j :: 0 <= j < |ids[1..]| ==> ids[1..][j] == ids[j + 1];
  }

  /** One copyout per used resource: the next index, and where and how long the resource is. */
  function Copyouts(z: uint64, n: nat, vs: seq<Visit>): seq<ExecCopyout>
    decreases |vs|
  {
    if |vs| == 0 then []
    else if !Used(vs[0].arg) then Copyouts(z, n, vs[1..])
    else [ExecCopyout(Wrap(n), Home(z, vs[0]), Wrap(vs[0].arg.size))] + Copyouts(z, n + 1, vs[1..])
  }

  /** The map has the right address for every used resource. */
  ghost predicate Homed(z: uint64, m: Infos, vs: seq<Visit>) {
    forall v :: v in vs && Used(v.arg) ==> (if v.arg.id in m then m[v.arg.id].addr else z) == Home(z, v)
  }

  lemma {:induction false} CopyinOthers(m: Infos, vs: seq<Visit>, id: nat)
    requires id !in UsedIds(vs)
    ensures WriteCopyin(m, vs).Some? ==>
              var r := WriteCopyin(m, vs).value.m; (id in r <==> id in m) && (id in m ==> r[id] == m[id])
    decreases |vs|
  {
    if |vs| > 0 { CopyinOthers(NoteAddr(m, vs[0]), vs[1..], id); }
  }

  /** After the arguments are copied in, the map has the address of every resource they hold. */
  lemma {:induction false} CopyinHomes(z: uint64, m: Infos, vs: seq<Visit>)
    requires Distinct(UsedIds(vs)) && forall id :: id in UsedIds(vs) ==> id !in m
    ensures WriteCopyin(m, vs).Some? ==> Homed(z, WriteCopyin(m, vs).value.m, vs)
    decreases |vs|
  {
    if |vs| > 0 && WriteCopyin(m, vs).Some? {
      var v, rest := vs[0], vs[1..];
      var m' := NoteAddr(m, v);
      var ids := UsedIds(vs);
      if Used(v.arg) {
        assert ids[0] == v.arg.id && ids[1..] == UsedIds(rest);
        DistinctTail(ids);
        assert ids[0] in ids;
        CopyinOthers(m', rest, v.arg.id);
      } else {
        assert ids == UsedIds(rest);
      }
      CopyinHomes(z, m', rest);
      assert forall w :: w in vs ==> w == v || w in rest;
    }
  }

  /** Copyout gives the used resources of a visit list consecutive indices and touches no other. */
  lemma {:induction false} CopyoutIndexes(z: uint64, m: Infos, n: nat, vs: seq<Visit>)
    requires Distinct(UsedIds(vs)) && Homed(z, m, vs)
    requires forall id :: id in UsedIds(vs) && id in m ==> !m[id].isRet
    ensures var out := WriteCopyout(z, m, n, vs);
            var ids := UsedIds(vs);
            && out.seq_ == n + |ids| && |out.cs| == |ids| && Consecutive(out.cs, n) && out.cs == Copyouts(z, n, vs)
            && IndexedFrom(out.m, ids, n) && SameElsewhere(m, out.m, ids)
    decreases |vs|
  {
    if |vs| > 0 {
      var a, rest := vs[0].arg, vs[1..];
      var ids := UsedIds(vs);
      assert vs[0] in vs && forall w :: w in rest ==> w in vs;
      if Used(a) {
        assert ids[0] == a.id && ids[1..] == UsedIds(rest);
        DistinctTail(ids);
        var info := if a.id in m then m[a.id] else Info(z, 0, false);
        assert ids[0] in ids;
        var m1 := m[a.id := info.(idx := n)];
        CopyoutIndexes(z, m1, n + 1, rest);
        var r := WriteCopyout(z, m1, n + 1, rest);
        var c := ExecCopyout(Wrap(n), info.addr, Wrap(a.size));
        assert WriteCopyout(z, m, n, vs) == r.(cs := [c] + r.cs);
        ConsecutiveCons(c, r.cs, n);
        IndexedCons(r.m, ids, n);
      } else {
        assert ids == UsedIds(rest);
        CopyoutIndexes(z, m, n, rest);
      }
    }
  }

  /** The return value is visited first; once it has its index, copyout passes over it. */
  lemma {:induction false} CopyoutWithRet(z: uint64, m: Infos, n: nat, c: PCall)
    requires WellShaped(c) && Distinct(Produced(c)) && RetUsed(c) && Homed(z, m, VisitArgs(c.args))
    requires c.ret.value.id in m && m[c.ret.value.id] == Info(z, n, true)
    requires forall id :: id in Produced(c) && id in m && id != c.ret.value.id ==> !m[id].isRet
    ensures var out := WriteCopyout(z, m, n + 1, Visits(c));
            var ids := Produced(c);
            && out.seq_ == n + |ids| && |out.cs| == |ids| - 1 && Consecutive(out.cs, n + 1)
            && out.cs == Copyouts(z, n + 1, VisitArgs(c.args))
            && IndexedFrom(out.m, ids, n) && SameElsewhere(m, out.m, ids)
  {
    var vs, ids := Visits(c), Produced(c);
    assert VisitArg(c.ret.value, None, 0) == [Visit(c.ret.value, None, 0)];
    assert vs[0] == Visit(c.ret.value, None, 0);
    assert vs[1..] == VisitArgs(c.args);
    assert ids[0] == c.ret.value.id && ids[1..] == UsedIds(vs[1..]);
    DistinctTail(ids);
    CopyoutIndexes(z, m, n + 1, vs[1..]);
    IndexedCons(WriteCopyout(z, m, n + 1, vs).m, ids, n);
  }

  // ----- one call -----

  /** The state the writer is in between calls. */
  ghost predicate Between(m: Infos, n: nat, ids: seq<nat>) {
    n == |ids| && Indexed(m, ids) && forall id :: id in m ==> id in ids
  }

  /** A call as the stream shows it, when ids are the resources of earlier calls. */
  ghost predicate GoodCall(z: uint64, m: Infos, ids: seq<nat>, c: PCall, e: ExecCall<Arg>) {
    var n := |ids|;
    && e.id == c.id && e.props == c.props
    && e.index == (if RetUsed(c) then Wrap(n) else NO_COPYOUT)
    && Some(e.args) == LowerAll(m, c.args)
    && MemoryWrites(m, Visits(c)).Some?
    && e.copyin == MemoryWrites(m, Visits(c)).value + Checksums(z, Visits(c), c.csums)
    && e.copyout == Copyouts(z, if RetUsed(c) then n + 1 else n, VisitArgs(c.args))
    && |e.copyout| == |Produced(c)| - (if RetUsed(c) then 1 else 0)
    && Consecutive(e.copyout, if RetUsed(c) then n + 1 else n)
  }

  lemma {:induction false} DistinctParts(p: seq<nat>, q: seq<nat>)
    requires Distinct(p + q)
    ensures Distinct(p) && Distinct(q) && forall id :: id in q ==> id !in p
  {
    assert forall i :: 0 <= i < |p| ==> (p + q)[i] == p[i];
    assert forall j :: 0 <= j < |q| ==> (p + q)[|p| + j] == q[j];
  }

  lemma {:induction false} VisitsParts(c: PCall)
    ensures forall v :: v in VisitArgs(c.args) ==> v in Visits(c)
  {
  }

  /** A used return value is not in memory, so nothing is noted for it before the call. */
  lemma {:induction false} NotNoted(m: Infos, vs: seq<Visit>, id: nat)
    requires id !in m && forall v :: v in vs && Used(v.arg) && v.base.Some? ==> v.arg.id != id
    ensures WriteCopyin(m, vs).Some? ==> id !in WriteCopyin(m, vs).value.m
    decreases |vs|
  {
    if |vs| > 0 {
      assert vs[0] in vs && forall w :: w in vs[1..] ==> w in vs;
      NotNoted(NoteAddr(m, vs[0]), vs[1..], id);
    }
  }

  lemma {:induction false} RetElsewhere(c: PCall, v: Visit)
    requires WellShaped(c) && RetUsed(c) && Distinct(Produced(c))
    requires v in Visits(c) && Used(v.arg) && v.base.Some?
    ensures v.arg.id != c.ret.value.id
  {
    var vs, ids := Visits(c), Produced(c);
    assert VisitArg(c.ret.value, None, 0) == [Visit(c.ret.value, None, 0)];
    assert vs[0] == Visit(c.ret.value, None, 0);
    var i :| 0 <= i < |vs| && vs[i] == v;
    assert i > 0;
    UsedIdsMember(vs[1..], i - 1);
    assert ids == [c.ret.value.id] + UsedIds(vs[1..]);
    var k :| 0 <= k < |UsedIds(vs[1..])| && UsedIds(vs[1..])[k] == v.arg.id;
    assert ids[k + 1] == v.arg.id && ids[0] == c.ret.value.id;
  }

  lemma {:induction false} RetNotCopied(z: uint64, n: nat, c: PCall)
    requires WellShaped(c) && !RetUsed(c)
    ensures Copyouts(z, n, Visits(c)) == Copyouts(z, n, VisitArgs(c.args))
  {
    if c.ret.Some? {
      assert VisitArg(c.ret.value, None, 0) == [Visit(c.ret.value, None, 0)];
      assert Visits(c)[0] == Visit(c.ret.value, None, 0) && Visits(c)[1..] == VisitArgs(c.args);
    } else {
      assert Visits(c) == VisitArgs(c.args);
    }
  }

  lemma {:induction false} HomedWithRet(z: uint64, m: Infos, c: PCall, n: nat, m1: Infos)
    requires WellShaped(c) && RetUsed(c) && Distinct(Produced(c)) && (forall id :: id in Produced(c) ==> id !in m)
    requires WriteCopyin(m, Visits(c)).Some? && WriteCopyin(m, Visits(c)).value.m == m1
    ensures Homed(z, m1[c.ret.value.id := Info(z, n, true)], VisitArgs(c.args))
  {
    CopyinHomes(z, m, Visits(c));
    VisitsParts(c);
    forall v | v in VisitArgs(c.args) && Used(v.arg) && v.base.Some? ensures v.arg.id != c.ret.value.id {
      RetElsewhere(c, v);
    }
  }

  /** The parts of a call, put together. */
  lemma {:induction false} Assembled(z: uint64, m: Infos, ids: seq<nat>, c: PCall, n: nat, m1: Infos,
                                     copyin: seq<ExecCopyin<Arg>>)
    requires n == |ids| && WriteCopyin(m, Visits(c)) == Some(Copied(m1, copyin))
             && MemoryWrites(m, Visits(c)) == Some(copyin)
    requires !(RetUsed(c) && c.ret.value.id in m1)
    requires var m2 := if RetUsed(c) then m1[c.ret.value.id := Info(z, n, true)] else m1;
             var n2 := if RetUsed(c) then n + 1 else n;
             var out := WriteCopyout(z, m2, n2, Visits(c));
             && LowerAll(m2, c.args).Some? && LowerAll(m2, c.args) == LowerAll(m, c.args)
             && out.cs == Copyouts(z, n2, VisitArgs(c.args)) && Consecutive(out.cs, n2)
             && |out.cs| == |Produced(c)| - (if RetUsed(c) then 1 else 0)
    ensures var m2 := if RetUsed(c) then m1[c.ret.value.id := Info(z, n, true)] else m1;
            var out := WriteCopyout(z, m2, if RetUsed(c) then n + 1 else n, Visits(c));
            var r := SerializeCall(z, m, n, c);
            r.Some? && r.value.m == out.m && r.value.seq_ == out.seq_ && GoodCall(z, m, ids, c, r.value.call)
  {
  }

  lemma {:induction false} SerializesPlain(z: uint64, m: Infos, ids: seq<nat>, c: PCall, n: nat, m1: Infos,
                                           copyin: seq<ExecCopyin<Arg>>)
    requires n == |ids| && Between(m, n, ids) && Distinct(ids) && Distinct(Produced(c)) && WellShaped(c) && !RetUsed(c)
    requires (forall id :: id in Produced(c) ==> id !in ids) && RefsIn(Visits(c), ids)
    requires WriteCopyin(m, Visits(c)) == Some(Copied(m1, copyin))
    ensures var r := SerializeCall(z, m, n, c);
            r.Some? && Between(r.value.m, r.value.seq_, ids + Produced(c)) && GoodCall(z, m, ids, c, r.value.call)
  {
    CopyinKeeps(m, Visits(c), ids);
    VisitsParts(c);
    LowerAllAgrees(m, m1, c.args, ids);
    CopyinHomes(z, m, Visits(c));
    CopyoutIndexes(z, m1, n, Visits(c));
    RetNotCopied(z, n, c);
    Assembled(z, m, ids, c, n, m1, copyin);
    Extended(m, m1, WriteCopyout(z, m1, n, Visits(c)).m, ids, Produced(c));
  }

  lemma {:induction false} SerializesWithRet(z: uint64, m: Infos, ids: seq<nat>, c: PCall, n: nat, m1: Infos,
                                             copyin: seq<ExecCopyin<Arg>>)
    requires n == |ids| && Between(m, n, ids) && Distinct(ids) && Distinct(Produced(c)) && WellShaped(c) && RetUsed(c)
    requires (forall id :: id in Produced(c) ==> id !in ids) && RefsIn(Visits(c), ids)
    requires WriteCopyin(m, Visits(c)) == Some(Copied(m1, copyin))
    ensures var r := SerializeCall(z, m, n, c);
            r.Some? && Between(r.value.m, r.value.seq_, ids + Produced(c)) && GoodCall(z, m, ids, c, r.value.call)
  {
    var vs, rid := Visits(c), c.ret.value.id;
    CopyinKeeps(m, vs, ids);
    VisitsParts(c);
    RetIsProduced(c);
    forall v | v in vs && Used(v.arg) && v.base.Some? ensures v.arg.id != rid { RetElsewhere(c, v); }
    NotNoted(m, vs, rid);
    var m2 := m1[rid := Info(z, n, true)];
    assert Agree(m, m2, ids);
    LowerAllAgrees(m, m2, c.args, ids);
    HomedWithRet(z, m, c, n, m1);
    CopyoutWithRet(z, m2, n, c);
    Assembled(z, m, ids, c, n, m1, copyin);
    Extended(m, m2, WriteCopyout(z, m2, n + 1, vs).m, ids, Produced(c));
  }

  lemma {:induction false} CallSerializes(z: uint64, m: Infos, ids: seq<nat>, c: PCall)
    requires Between(m, |ids|, ids) && Distinct(ids + Produced(c))
    requires WellShaped(c) && RefsIn(Visits(c), ids)
    ensures var r := SerializeCall(z, m, |ids|, c);
            && r.Some?
            && Between(r.value.m, r.value.seq_, ids + Produced(c))
            && GoodCall(z, m, ids, c, r.value.call)
  {
    DistinctParts(ids, Produced(c));
    CopyinKeeps(m, Visits(c), ids);
    var k := WriteCopyin(m, Visits(c)).value;
    if RetUsed(c) {
      SerializesWithRet(z, m, ids, c, |ids|, k.m, k.cs);
    } else {
      SerializesPlain(z, m, ids, c, |ids|, k.m, k.cs);
    }
  }

  lemma {:induction false} RetIsProduced(c: PCall)
    requires WellShaped(c) && RetUsed(c)
    ensures c.ret.value.id in Produced(c)
  {
    assert VisitArg(c.ret.value, None, 0) == [Visit(c.ret.value, None, 0)];
    assert Visits(c)[0] == Visit(c.ret.value, None, 0);
    UsedIdsMember(Visits(c), 0);
  }

  lemma {:induction false} Extended(m: Infos, m2: Infos, m3: Infos, ids: seq<nat>, q: seq<nat>)
    requires Between(m, |ids|, ids) && Agree(m, m2, ids) && (forall id :: id in q ==> id !in ids)
    requires forall id :: id in m2 ==> id in ids || id in q
    requires IndexedFrom(m3, q, |ids|) && SameElsewhere(m2, m3, q)
    ensures Between(m3, |ids| + |q|, ids + q)
  {
    var all := ids + q;
    forall j | 0 <= j < |all| ensures all[j] in m3 && m3[all[j]].idx == j {
      if j < |ids| {
        assert all[j] == ids[j] && ids[j] in ids;
      } else {
        assert all[j] == q[j - |ids|];
      }
    }
  }

  // ----- every program -----

  lemma {:induction false} WellFormedPrefix(cs: seq<PCall>)
    requires |cs| > 0 && WellFormed(cs)
    ensures WellFormed(cs[..|cs| - 1])
  {
    var n := |cs| - 1;
    DistinctParts(AllProduced(cs[..n]), Produced(cs[n]));
    forall k | 0 <= k < n
      ensures WellShaped(cs[..n][k]) && RefsIn(Visits(cs[..n][k]), AllProduced(cs[..n][..k]))
    {
      PrefixOfPrefix(cs, n, k);
      assert WellShaped(cs[k]) && RefsIn(Visits(cs[k]), AllProduced(cs[..k]));
    }
  }

  lemma {:induction false} PrefixOfPrefix(cs: seq<PCall>, n: nat, k: nat)
    requires k < n <= |cs|
    ensures cs[..n][k] == cs[k] && cs[..n][..k] == cs[..k]
  {
  }

  /**
   A well-formed program serializes without a panic; it needs one index per produced resource,
   and the writer's final map numbers them 0, 1, 2, ... in the order in which they are produced.
   */
  lemma {:induction false} IndicesAreDense(z: uint64, cs: seq<PCall>)
    requires WellFormed(cs)
    ensures var r := SerializeCalls(z, cs);
            && r.Some? && |r.value.calls| == |cs|
            && Between(r.value.m, r.value.seq_, AllProduced(cs))
  {
    if |cs| > 0 {
      var n := |cs| - 1;
      WellFormedPrefix(cs);
      IndicesAreDense(z, cs[..n]);
      assert WellShaped(cs[n]) && RefsIn(Visits(cs[n]), AllProduced(cs[..n]));
      CallSerializes(z, SerializeCalls(z, cs[..n]).value.m, AllProduced(cs[..n]), cs[n]);
    }
  }

  /** Each call takes the next indices, and its arguments are lowered with the earlier calls' map. */
  lemma {:induction false} CallsAreGood(z: uint64, cs: seq<PCall>, k: nat)
    requires WellFormed(cs) && k < |cs|
    ensures SerializeCalls(z, cs).Some? && SerializeCalls(z, cs[..k]).Some?
    ensures |SerializeCalls(z, cs).value.calls| == |cs|
    ensures GoodCall(z, SerializeCalls(z, cs[..k]).value.m, AllProduced(cs[..k]), cs[k],
            SerializeCalls(z, cs).value.calls[k])
    ensures Indexed(SerializeCalls(z, cs[..k]).value.m, AllProduced(cs[..k]))
  {
    var n := |cs| - 1;
    WellFormedPrefix(cs);
    IndicesAreDense(z, cs);
    IndicesAreDense(z, cs[..n]);
    if k == n {
      CallSerializes(z, SerializeCalls(z, cs[..n]).value.m, AllProduced(cs[..n]), cs[n]);
    } else {
      CallsAreGood(z, cs[..n], k);
      assert cs[..n][..k] == cs[..k];
    }
  }

  /** A reference is lowered to the index of exactly the resource it names. */
  lemma {:induction false} ReferenceIndex(m: Infos, ids: seq<nat>, a: PArg)
    requires Indexed(m, ids) && |ids| < TWO64
    requires a.PResult? && a.res.Some? && a.res.value in ids
    ensures var r := Lower(m, a);
            r.Some? && r.value.Result? && r.value.index < |ids| && ids[r.value.index] == a.res.value
  {
    var j :| 0 <= j < |ids| && ids[j] == a.res.value;
    assert m[ids[j]].idx == j;
  }

  // ----- the decoder's check on variables -----

  lemma {:induction false} CopyoutVarsConsecutive(n: nat, k: nat, cs: seq<ExecCopyout>)
    requires Consecutive(cs, k) && n <= k && k + |cs| < TWO64
    ensures CopyoutVars(n, cs) == if |cs| == 0 then n else k + |cs|
  {
    if |cs| > 0 {
      var j := |cs| - 1;
      CopyoutVarsConsecutive(n, k, cs[..j]);
      assert cs[j].index == Wrap(k + j) == k + j;
      assert Wrap(cs[j].index + 1) == k + j + 1;
    }
  }

  lemma {:induction false} CallCounts(z: uint64, m: Infos, ids: seq<nat>, c: PCall, e: ExecCall<Arg>)
    requires WellShaped(c) && GoodCall(z, m, ids, c, e) && |ids| + |Produced(c)| < NO_COPYOUT
    ensures CallVars(|ids|, e.index, e.copyout) == |ids| + |Produced(c)|
  {
    var n := |ids|;
    assert Wrap(n) == n;
    if RetUsed(c) {
      RetIsProduced(c);
      CopyoutVarsConsecutive(n + 1, n + 1, e.copyout);
    } else {
      CopyoutVarsConsecutive(n, n, e.copyout);
    }
  }

  lemma {:induction false} ProducedStep(cs: seq<PCall>, k: nat)
    requires 0 < k <= |cs|
    ensures AllProduced(cs[..k]) == AllProduced(cs[..k - 1]) + Produced(cs[k - 1])
  {
    assert cs[..k][..k - 1] == cs[..k - 1];
  }

  /** The decoder counts exactly the indices that the writer allocated. */
  lemma {:induction false} NumVarsCounts(z: uint64, cs: seq<PCall>, k: nat)
    requires WellFormed(cs) && k <= |cs| && |AllProduced(cs)| < NO_COPYOUT
    ensures SerializeCalls(z, cs).Some? && |SerializeCalls(z, cs).value.calls| == |cs|
    ensures NumVars(SerializeCalls(z, cs).value.calls, k) == |AllProduced(cs[..k])|
  {
    IndicesAreDense(z, cs);
    if k > 0 {
      NumVarsCounts(z, cs, k - 1);
      CallsAreGood(z, cs, k - 1);
      PrefixProduced(cs, k);
      ProducedStep(cs, k);
      CallCounts(z, SerializeCalls(z, cs[..k - 1]).value.m, AllProduced(cs[..k - 1]), cs[k - 1],
                 SerializeCalls(z, cs).value.calls[k - 1]);
    }
  }

  lemma {:induction false} PrefixProduced(cs: seq<PCall>, k: nat)
    requires k <= |cs|
    ensures |AllProduced(cs[..k])| <= |AllProduced(cs)|
  {
    if k < |cs| {
      PrefixProduced(cs[..|cs| - 1], k);
      assert cs[..|cs| - 1][..k] == cs[..k];
    } else {
      assert cs[..k] == cs;
    }
  }

  /** All arguments of the first k calls, as the decoder meets them. */
  function Met(calls: seq<ExecCall<Arg>>, k: nat): seq<ExecArg>
    requires k <= |calls|
  {
    if k == 0 then [] else Met(calls, k - 1) + CopyinArgs(calls[k - 1].copyin) + ViewArgs(calls[k - 1].args)
  }

  lemma {:induction false} NoteConcat(vars: seq<uint64>, a: seq<ExecArg>, b: seq<ExecArg>)
    ensures NoteVars(vars, a + b) == NoteVars(NoteVars(vars, a), b)
    decreases |a|
  {
    if |a| == 0 {
      assert a + b == b;
    } else {
      assert (a + b)[1..] == a[1..] + b;
      NoteConcat(NoteVar(vars, a[0]), a[1..], b);
    }
  }

  lemma {:induction false} VarsAreMet(calls: seq<ExecCall<Arg>>, k: nat)
    requires k <= |calls|
    ensures Vars(calls, k) == NoteVars([], Met(calls, k))
  {
    if k > 0 {
      VarsAreMet(calls, k - 1);
      var a, b := CopyinArgs(calls[k - 1].copyin), ViewArgs(calls[k - 1].args);
      NoteConcat([], Met(calls, k - 1) + a, b);
      NoteConcat([], Met(calls, k - 1), a);
    }
  }

  predicate MentionsAtLeast(args: seq<ExecArg>, j: int) {
    exists a :: a in args && a.ExecResult? && a.index >= j
  }

  lemma {:induction false} NoteVarsLength(vars: seq<uint64>, args: seq<ExecArg>, j: nat)
    ensures |NoteVars(vars, args)| > j <==> |vars| > j || MentionsAtLeast(args, j)
    decreases |args|
  {
    if |args| > 0 {
      var a, rest := args[0], args[1..];
      NoteVarsLength(NoteVar(vars, a), rest, j);
      assert args == [a] + rest;
      assert a in args && forall x :: x in rest ==> x in args;
      assert MentionsAtLeast(args, j) <==> (a.ExecResult? && a.index >= j) || MentionsAtLeast(rest, j) by {
        if MentionsAtLeast(args, j) {
          var x :| x in args && x.ExecResult? && x.index >= j;
          assert x == a || x in rest;
        }
      }
    }
  }

  // ----- references stay below what is allocated -----

  predicate Below(a: Arg, n: nat) { a.Result? ==> a.index < n }

  lemma {:induction false} LowerBelow(m: Infos, ids: seq<nat>, a: PArg, base: Option<uint64>, off: nat)
    requires Indexed(m, ids) && |ids| < TWO64 && Lowerable(a) && RefsIn(VisitArg(a, base, off), ids)
    ensures Lower(m, a).Some? ==> Below(Lower(m, a).value, |ids|)
    decreases a
  {
    assert VisitArg(a, base, off)[0] == Visit(a, base, off);
    assert Visit(a, base, off) in VisitArg(a, base, off);
    if a.PUnion? {
      assert forall v :: v in VisitArg(a.option, base, off) ==> v in VisitArg(a, base, off);
      LowerBelow(m, ids, a.option, base, off);
    } else if a.PResult? && a.res.Some? {
      ReferenceIndex(m, ids, a);
    }
  }

  lemma {:induction false} LowerAllBelow(m: Infos, ids: seq<nat>, args: seq<PArg>)
    requires Indexed(m, ids) && |ids| < TWO64 && RefsIn(VisitArgs(args), ids)
    requires forall a :: a in args ==> Lowerable(a)
    ensures LowerAll(m, args).Some? ==> forall x :: x in LowerAll(m, args).value ==> Below(x, |ids|)
  {
    if |args| > 0 {
      assert forall v :: v in VisitArg(args[0], None, 0) ==> v in VisitArgs(args);
      assert forall v :: v in VisitArgs(args[1..]) ==> v in VisitArgs(args);
      LowerBelow(m, ids, args[0], None, 0);
      LowerAllBelow(m, ids, args[1..]);
    }
  }

  lemma {:induction false} WritesBelow(m: Infos, ids: seq<nat>, vs: seq<Visit>)
    requires Indexed(m, ids) && |ids| < TWO64 && RefsIn(vs, ids)
    requires forall v :: v in vs && Emitted(v) ==> Lowerable(v.arg)
    ensures MemoryWrites(m, vs).Some? ==> forall x :: x in MemoryWrites(m, vs).value ==> Below(x.arg, |ids|)
    decreases |vs|
  {
    if |vs| > 0 {
      var v := vs[0];
      assert v in vs && forall w :: w in vs[1..] ==> w in vs;
      WritesBelow(m, ids, vs[1..]);
      if Emitted(v) && v.arg.PResult? && v.arg.res.Some? { ReferenceIndex(m, ids, v.arg); }
    }
  }

  /** No argument in the stream mentions an index that no earlier call allocated. */
  lemma {:induction false} MetBelow(z: uint64, cs: seq<PCall>, k: nat)
    requires WellFormed(cs) && k <= |cs| && |AllProduced(cs)| < NO_COPYOUT
    ensures SerializeCalls(z, cs).Some? && |SerializeCalls(z, cs).value.calls| == |cs|
    ensures forall a ::
              a in Met(SerializeCalls(z, cs).value.calls, k) && a.ExecResult? ==> a.index < |AllProduced(cs[..k])|
  {
    IndicesAreDense(z, cs);
    if k > 0 {
      MetBelow(z, cs, k - 1);
      CallsAreGood(z, cs, k - 1);
      ProducedStep(cs, k);
      PrefixProduced(cs, k);
      CallBelow(z, SerializeCalls(z, cs[..k - 1]).value.m, AllProduced(cs[..k - 1]), cs[k - 1],
                SerializeCalls(z, cs).value.calls[k - 1]);
    }
  }

  lemma {:induction false} CallBelow(z: uint64, m: Infos, ids: seq<nat>, c: PCall, e: ExecCall<Arg>)
    requires WellShaped(c) && RefsIn(Visits(c), ids) && Indexed(m, ids) && |ids| < TWO64 && GoodCall(z, m, ids, c, e)
    ensures forall a :: a in CopyinArgs(e.copyin) + ViewArgs(e.args) && a.ExecResult? ==> a.index < |ids|
  {
    VisitsParts(c);
    LowerAllBelow(m, ids, c.args);
    WritesBelow(m, ids, Visits(c));
    ChecksumsAreSums(z, Visits(c), Sort(c.csums, FieldKey(z, Visits(c))));
    ArgsBelow(MemoryWrites(m, Visits(c)).value, Checksums(z, Visits(c), c.csums), e.args, |ids|);
  }

  lemma {:induction false} ArgsBelow(ws: seq<ExecCopyin<Arg>>, sums: seq<ExecCopyin<Arg>>, args: seq<Arg>, n: nat)
    requires forall x :: x in ws ==> Below(x.arg, n)
    requires forall x :: x in sums ==> x.arg.Csum?
    requires forall x :: x in args ==> Below(x, n)
    ensures forall a :: a in CopyinArgs(ws + sums) + ViewArgs(args) && a.ExecResult? ==> a.index < n
  {
    var all := ws + sums;
    var copied := CopyinArgs(all);
    forall i | 0 <= i < |copied| ensures copied[i].ExecResult? ==> copied[i].index < n {
      assert copied[i] == View(all[i].arg);
      if i < |ws| { assert all[i] in ws; } else { assert all[i] in sums; }
    }
    forall i | 0 <= i < |args| && ViewArgs(args)[i].ExecResult? ensures ViewArgs(args)[i].index < n {
      assert args[i] in args;
    }
  }
}
