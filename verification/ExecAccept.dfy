/**
 When the decoder of the exec format accepts a serialized program (DeserializeExec in
 prog/decodeexec.go), in terms of the program alone, for programs as prog/validation.go wants them.
 */
module ExecAccept {
  import opened Basics
  import opened Counting
  import opened Bits
  import opened Varint
  import opened ExecFormat
  import opened StableOrder
  import opened ExecStream
  import opened ExecResources

  // ----- references that are written -----

  /** What writeArg refers to when it writes an argument. */
  function RefOf(a: PArg): set<nat>
    decreases a
  {
    match a
    case PResult(_, _, _, _, res, _, _, _, _, _) => if res.Some? then {res.value} else {}
    case PUnion(_, _, o) => RefOf(o)
    case _ => {}
  }

  function MemoryRefs(vs: seq<Visit>): set<nat> {
    if |vs| == 0 then {} else (if Emitted(vs[0]) then RefOf(vs[0].arg) else {}) + MemoryRefs(vs[1..])
  }

  function ArgRefs(args: seq<PArg>): set<nat> {
    if |args| == 0 then {} else RefOf(args[0]) + ArgRefs(args[1..])
  }

  /** Resources that the stream mentions for call c. */
  function Written(c: PCall): set<nat> { MemoryRefs(Visits(c)) + ArgRefs(c.args) }

  function AllWritten(cs: seq<PCall>): set<nat> {
    if |cs| == 0 then {} else AllWritten(cs[..|cs| - 1]) + Written(cs[|cs| - 1])
  }

  // ----- they are what the decoder meets -----

  /** Resources that decoded arguments name, when index i stands for ids[i]. */
  function Named(ids: seq<nat>, args: seq<ExecArg>): set<nat> {
    set a | a in args && a.ExecResult? && a.index < |ids| :: ids[a.index]
  }

  lemma {:induction false} NamedConcat(ids: seq<nat>, a: seq<ExecArg>, b: seq<ExecArg>)
    ensures Named(ids, a + b) == Named(ids, a) + Named(ids, b)
  {
  }

  lemma {:induction false} NamedOne(ids: seq<nat>, a: ExecArg)
    ensures Named(ids, [a]) == if a.ExecResult? && a.index < |ids| then {ids[a.index]} else {}
  {
    if a.ExecResult? && a.index < |ids| { assert a in [a]; }
  }

  lemma {:induction false} NamedPrefix(ids: seq<nat>, all: seq<nat>, args: seq<ExecArg>)
    requires ids <= all && forall a :: a in args && a.ExecResult? ==> a.index < |ids|
    ensures Named(all, args) == Named(ids, args)
  {
  }

  lemma {:induction false} LowerNames(m: Infos, ids: seq<nat>, a: PArg, base: Option<uint64>, off: nat)
    requires Indexed(m, ids) && |ids| < TWO64 && Lowerable(a) && RefsIn(VisitArg(a, base, off), ids)
    ensures Lower(m, a).Some? ==> Named(ids, [View(Lower(m, a).value)]) == RefOf(a)
    decreases a
  {
    assert VisitArg(a, base, off)[0] == Visit(a, base, off);
    assert Visit(a, base, off) in VisitArg(a, base, off);
    if Lower(m, a).Some? { NamedOne(ids, View(Lower(m, a).value)); }
    if a.PUnion? {
      assert forall v :: v in VisitArg(a.option, base, off) ==> v in VisitArg(a, base, off);
      LowerNames(m, ids, a.option, base, off);
    } else if a.PResult? && a.res.Some? {
      ReferenceIndex(m, ids, a);
    }
  }

  lemma {:induction false} LowerAllNames(m: Infos, ids: seq<nat>, args: seq<PArg>)
    requires Indexed(m, ids) && |ids| < TWO64 && RefsIn(VisitArgs(args), ids)
    requires forall a :: a in args ==> Lowerable(a)
    ensures LowerAll(m, args).Some? ==> Named(ids, ViewArgs(LowerAll(m, args).value)) == ArgRefs(args)
  {
    if |args| > 0 && LowerAll(m, args).Some? {
      assert forall v :: v in VisitArg(args[0], None, 0) ==> v in VisitArgs(args);
      assert forall v :: v in VisitArgs(args[1..]) ==> v in VisitArgs(args);
      LowerNames(m, ids, args[0], None, 0);
      LowerAllNames(m, ids, args[1..]);
      var x, rest := Lower(m, args[0]).value, LowerAll(m, args[1..]).value;
      assert ViewArgs([x] + rest) == [View(x)] + ViewArgs(rest);
      NamedConcat(ids, [View(x)], ViewArgs(rest));
    }
  }

  lemma {:induction false} WritesNames(m: Infos, ids: seq<nat>, vs: seq<Visit>)
    requires Indexed(m, ids) && |ids| < TWO64 && RefsIn(vs, ids)
    requires forall v :: v in vs && Emitted(v) ==> Lowerable(v.arg)
    ensures MemoryWrites(m, vs).Some? ==> Named(ids, CopyinArgs(MemoryWrites(m, vs).value)) == MemoryRefs(vs)
    decreases |vs|
  {
    if |vs| > 0 && MemoryWrites(m, vs).Some? {
      var v := vs[0];
      assert v in vs && forall w :: w in vs[1..] ==> w in vs;
      WritesNames(m, ids, vs[1..]);
      if Emitted(v) {
        LeafNames(m, ids, v.arg);
        var x, rest := ExecCopyin(AddrOf(v), Lower(m, v.arg).value), MemoryWrites(m, vs[1..]).value;
        assert CopyinArgs([x] + rest) == [View(x.arg)] + CopyinArgs(rest);
        NamedConcat(ids, [View(x.arg)], CopyinArgs(rest));
      }
    }
  }

  lemma {:induction false} LeafNames(m: Infos, ids: seq<nat>, a: PArg)
    requires Indexed(m, ids) && |ids| < TWO64 && Lowerable(a) && !a.PGroup? && !a.PUnion?
    requires a.PResult? && a.res.Some? ==> a.res.value in ids
    ensures Lower(m, a).Some? ==> Named(ids, [View(Lower(m, a).value)]) == RefOf(a)
  {
    if Lower(m, a).Some? { NamedOne(ids, View(Lower(m, a).value)); }
    if a.PResult? && a.res.Some? { ReferenceIndex(m, ids, a); }
  }

  lemma {:induction false} SumsNameNothing(ids: seq<nat>, sums: seq<ExecCopyin<Arg>>)
    requires forall x :: x in sums ==> x.arg.Csum?
    ensures Named(ids, CopyinArgs(sums)) == {}
  {
    forall i | 0 <= i < |sums| ensures CopyinArgs(sums)[i].ExecCsum? { assert sums[i] in sums; }
  }

  lemma {:induction false} CallNames(z: uint64, m: Infos, ids: seq<nat>, c: PCall, e: ExecCall<Arg>)
    requires WellShaped(c) && RefsIn(Visits(c), ids) && Indexed(m, ids) && |ids| < TWO64 && GoodCall(z, m, ids, c, e)
    ensures Named(ids, CopyinArgs(e.copyin) + ViewArgs(e.args)) == Written(c)
  {
    VisitsParts(c);
    LowerAllNames(m, ids, c.args);
    WritesNames(m, ids, Visits(c));
    ChecksumsAreSums(z, Visits(c), Sort(c.csums, FieldKey(z, Visits(c))));
    NamesJoin(ids, MemoryWrites(m, Visits(c)).value, Checksums(z, Visits(c), c.csums), e.args);
  }

  lemma {:induction false} NamesJoin(ids: seq<nat>, ws: seq<ExecCopyin<Arg>>, sums: seq<ExecCopyin<Arg>>,
                                     args: seq<Arg>)
    requires forall x :: x in sums ==> x.arg.Csum?
    ensures Named(ids, CopyinArgs(ws + sums) + ViewArgs(args)) ==
            Named(ids, CopyinArgs(ws)) + Named(ids, ViewArgs(args))
  {
    SumsNameNothing(ids, sums);
    CopyinArgsConcat(ws, sums);
    NamedConcat(ids, CopyinArgs(ws), CopyinArgs(sums));
    NamedConcat(ids, CopyinArgs(ws + sums), ViewArgs(args));
  }

  lemma {:induction false} CopyinArgsConcat(a: seq<ExecCopyin<Arg>>, b: seq<ExecCopyin<Arg>>)
    ensures CopyinArgs(a + b) == CopyinArgs(a) + CopyinArgs(b)
  {
  }

  lemma {:induction false} ProducedPrefix(cs: seq<PCall>, k: nat)
    requires k <= |cs|
    ensures AllProduced(cs[..k]) <= AllProduced(cs)
  {
    if k < |cs| {
      ProducedPrefix(cs[..|cs| - 1], k);
      assert cs[..|cs| - 1][..k] == cs[..k];
    } else {
      assert cs[..k] == cs;
    }
  }

  /** The decoder meets exactly the written references of the first k calls. */
  lemma {:induction false} MetNames(z: uint64, cs: seq<PCall>, k: nat)
    requires WellFormed(cs) && k <= |cs| && |AllProduced(cs)| < NO_COPYOUT
    ensures SerializeCalls(z, cs).Some? && |SerializeCalls(z, cs).value.calls| == |cs|
    ensures Named(AllProduced(cs), Met(SerializeCalls(z, cs).value.calls, k)) == AllWritten(cs[..k])
  {
    IndicesAreDense(z, cs);
    if k > 0 {
      var j, calls := k - 1, SerializeCalls(z, cs).value.calls;
      MetNames(z, cs, j);
      CallsAreGood(z, cs, j);
      ProducedPrefix(cs, j);
      CallBelow(z, SerializeCalls(z, cs[..j]).value.m, AllProduced(cs[..j]), cs[j], calls[j]);
      CallNames(z, SerializeCalls(z, cs[..j]).value.m, AllProduced(cs[..j]), cs[j], calls[j]);
      MetNext(AllProduced(cs[..j]), AllProduced(cs), calls, j);
      assert cs[..k][..j] == cs[..j];
    }
  }

  lemma {:induction false} MetNext(ids: seq<nat>, all: seq<nat>, calls: seq<ExecCall<Arg>>, j: nat)
    requires ids <= all && j < |calls|
    requires forall a :: a in CopyinArgs(calls[j].copyin) + ViewArgs(calls[j].args) && a.ExecResult? ==> a.index < |ids|
    ensures Named(all, Met(calls, j + 1)) ==
            Named(all, Met(calls, j)) + Named(ids, CopyinArgs(calls[j].copyin) + ViewArgs(calls[j].args))
  {
    var own := CopyinArgs(calls[j].copyin) + ViewArgs(calls[j].args);
    NamedPrefix(ids, all, own);
    assert Met(calls, j + 1) == Met(calls, j) + own;
    NamedConcat(all, Met(calls, j), own);
  }

  lemma {:induction false} LastNamed(ids: seq<nat>, met: seq<ExecArg>)
    requires Distinct(ids) && |ids| > 0 && forall a :: a in met && a.ExecResult? ==> a.index < |ids|
    ensures MentionsAtLeast(met, |ids| - 1) <==> ids[|ids| - 1] in Named(ids, met)
  {
  }

  /** The last resource that the program produces is mentioned in the stream, if it produces any. */
  predicate LastWritten(cs: seq<PCall>) {
    var ids := AllProduced(cs);
    |ids| == 0 || ids[|ids| - 1] in AllWritten(cs)
  }

  /** The decoder's check on variables succeeds exactly if the last resource produced is mentioned. */
  lemma {:induction false} AcceptedIff(z: uint64, cs: seq<PCall>)
    requires WellFormed(cs) && |AllProduced(cs)| < NO_COPYOUT
    ensures SerializeCalls(z, cs).Some? && |SerializeCalls(z, cs).value.calls| == |cs|
    ensures var calls := SerializeCalls(z, cs).value.calls;
            |Vars(calls, |cs|)| == NumVars(calls, |cs|) <==> LastWritten(cs)
  {
    NumVarsCounts(z, cs, |cs|);
    MetBelow(z, cs, |cs|);
    MetNames(z, cs, |cs|);
    assert cs[..|cs|] == cs;
    VarsAreMet(SerializeCalls(z, cs).value.calls, |cs|);
    LastDecides(AllProduced(cs), Met(SerializeCalls(z, cs).value.calls, |cs|), AllWritten(cs));
  }

  lemma {:induction false} LastDecides(ids: seq<nat>, met: seq<ExecArg>, written: set<nat>)
    requires Distinct(ids) && Named(ids, met) == written && forall a :: a in met && a.ExecResult? ==> a.index < |ids|
    ensures |NoteVars([], met)| == |ids| <==> |ids| == 0 || ids[|ids| - 1] in written
  {
    VarsLength(met, |ids|);
    if |ids| > 0 { LastNamed(ids, met); }
  }

  lemma {:induction false} VarsLength(met: seq<ExecArg>, n: nat)
    requires forall a :: a in met && a.ExecResult? ==> a.index < n
    ensures |NoteVars([], met)| == n <==> n == 0 || MentionsAtLeast(met, n - 1)
  {
    NoteVarsLength([], met, n);
    if n > 0 { NoteVarsLength([], met, n - 1); }
  }

  // ----- validated programs -----

  function ProgVisits(cs: seq<PCall>): seq<Visit> {
    if |cs| == 0 then [] else ProgVisits(cs[..|cs| - 1]) + Visits(cs[|cs| - 1])
  }

  predicate Refers(a: PArg, id: nat) { a.PResult? && a.res == Some(id) }

  /** Every use is the reference of some argument, and every reference is a use. */
  ghost predicate UsesInverse(vs: seq<Visit>) {
    && (forall a, u :: a in vs && a.arg.PResult? && u in a.arg.uses ==> UsedBy(vs, a.arg.id, u))
    && (forall b :: b in vs && b.arg.PResult? && b.arg.res.Some? ==> UseOf(vs, b.arg.res.value, b.arg.id))
  }

  /** Some argument with identity u refers to resource id. */
  ghost predicate UsedBy(vs: seq<Visit>, id: nat, u: nat) {
    exists b :: b in vs && Refers(b.arg, id) && b.arg.id == u
  }

  /** Resource id lists u among its uses. */
  ghost predicate UseOf(vs: seq<Visit>, id: nat, u: nat) {
    exists a :: a in vs && a.arg.PResult? && a.arg.id == id && u in a.arg.uses
  }

  /** What validation checks of resources: return values refer to nothing, uses are the inverse of references. */
  ghost predicate Validated(cs: seq<PCall>) {
    && (forall c :: c in cs && c.ret.Some? && c.ret.value.PResult? ==> c.ret.value.res.None?)
    && UsesInverse(ProgVisits(cs))
  }

  /** The argument is written: it is in a register, or in memory and neither output nor empty. */
  predicate IsWritten(v: Visit) { v.base.None? || Emitted(v) }

  lemma {:induction false} ArgRefIn(args: seq<PArg>, i: nat)
    requires i < |args|
    ensures RefOf(args[i]) <= ArgRefs(args)
  {
    if i > 0 { ArgRefIn(args[1..], i - 1); }
  }

  /** Behind a pointer everything is in memory. */
  lemma {:induction false} InMemory(a: PArg, base: Option<uint64>, off: nat, v: Visit)
    requires base.Some? && v in VisitArg(a, base, off)
    ensures v.base.Some?
    decreases a
  {
    if v != Visit(a, base, off) {
      match a
      case PPointer(_, _, addr, Some(p)) => InMemory(p, Some(addr), 0, v);
      case PGroup(_, _, inner, overlay) => FieldsInMemory(inner, base, off, off, overlay, v);
      case PUnion(_, _, o) => InMemory(o, base, off, v);
      case _ =>
    }
  }

  lemma {:induction false} FieldsInMemory(fs: seq<PArg>, base: Option<uint64>, start: nat, off: nat, k: int, v: Visit)
    requires base.Some? && v in VisitFields(fs, base, start, off, k)
    ensures v.base.Some?
    decreases fs
  {
    var o := if k == 0 then start else off;
    if v in VisitArg(fs[0], base, o) {
      InMemory(fs[0], base, o, v);
    } else {
      FieldsInMemory(fs[1..], base, start, o + fs[0].size, k - 1, v);
    }
  }

  /** The register arguments among the visits of an argument are what writeArg descends to. */
  lemma {:induction false} RegisterRef(a: PArg, v: Visit, r: nat)
    requires Lowerable(a) && v in VisitArg(a, None, 0) && v.base.None? && Refers(v.arg, r)
    ensures r in RefOf(a)
    decreases a
  {
    if v != Visit(a, None, 0) {
      match a
      case PPointer(_, _, addr, Some(p)) => InMemory(p, Some(addr), 0, v);
      case PUnion(_, _, o) => RegisterRef(o, v, r);
      case _ =>
    }
  }

  lemma {:induction false} FromRegister(a: PArg, r: nat) returns (v: Visit)
    requires r in RefOf(a)
    ensures v in VisitArg(a, None, 0) && v.base.None? && Refers(v.arg, r)
    decreases a
  {
    v := Visit(a, None, 0);
    assert VisitArg(a, None, 0)[0] == v;
    if a.PUnion? { v := FromRegister(a.option, r); }
  }

  lemma {:induction false} RegisterRefs(args: seq<PArg>, v: Visit, r: nat)
    requires (forall a :: a in args ==> Lowerable(a)) && v in VisitArgs(args) && v.base.None? && Refers(v.arg, r)
    ensures r in ArgRefs(args)
  {
    if v in VisitArg(args[0], None, 0) {
      assert args[0] in args;
      RegisterRef(args[0], v, r);
    } else {
      RegisterRefs(args[1..], v, r);
    }
  }

  lemma {:induction false} FromRegisters(args: seq<PArg>, r: nat) returns (v: Visit)
    requires r in ArgRefs(args)
    ensures v in VisitArgs(args) && v.base.None? && Refers(v.arg, r)
  {
    if r in RefOf(args[0]) { v := FromRegister(args[0], r); } else { v := FromRegisters(args[1..], r); }
  }

  lemma {:induction false} MemoryRef(vs: seq<Visit>, v: Visit, r: nat)
    requires v in vs && Emitted(v) && Refers(v.arg, r)
    ensures r in MemoryRefs(vs)
  {
    if v != vs[0] { MemoryRef(vs[1..], v, r); }
  }

  lemma {:induction false} FromMemory(vs: seq<Visit>, r: nat) returns (v: Visit)
    requires r in MemoryRefs(vs)
    ensures v in vs && Emitted(v) && Refers(v.arg, r)
  {
    v := vs[0];
    if !(Emitted(v) && r in RefOf(v.arg)) { v := FromMemory(vs[1..], r); }
  }

  /** Whether call c mentions resource r can be read off its arguments. */
  lemma {:induction false} WrittenIff(c: PCall, r: nat)
    requires WellShaped(c) && (c.ret.Some? ==> c.ret.value.res.None?)
    ensures r in Written(c) <==> exists v :: v in Visits(c) && Refers(v.arg, r) && IsWritten(v)
  {
    if r in MemoryRefs(Visits(c)) {
      var v := FromMemory(Visits(c), r);
    } else if r in ArgRefs(c.args) {
      var v := FromRegisters(c.args, r);
      VisitsParts(c);
    }
    forall v | v in Visits(c) && Refers(v.arg, r) && IsWritten(v) ensures r in Written(c) {
      if v.base.Some? { MemoryRef(Visits(c), v, r); } else { RegisterVisit(c, v, r); }
    }
  }

  lemma {:induction false} RegisterVisit(c: PCall, v: Visit, r: nat)
    requires WellShaped(c) && (c.ret.Some? ==> c.ret.value.res.None?)
    requires v in Visits(c) && v.base.None? && Refers(v.arg, r)
    ensures r in ArgRefs(c.args)
  {
    if c.ret.Some? { assert VisitArg(c.ret.value, None, 0) == [Visit(c.ret.value, None, 0)]; }
    RegisterRefs(c.args, v, r);
  }

  lemma {:induction false} AllWrittenIff(cs: seq<PCall>, r: nat)
    requires forall c :: c in cs ==> WellShaped(c) && (c.ret.Some? ==> c.ret.value.res.None?)
    ensures r in AllWritten(cs) <==> exists v :: v in ProgVisits(cs) && Refers(v.arg, r) && IsWritten(v)
  {
    if |cs| > 0 {
      var rest, c := cs[..|cs| - 1], cs[|cs| - 1];
      assert c in cs && forall x :: x in rest ==> x in cs;
      AllWrittenIff(rest, r);
      WrittenIff(c, r);
      assert forall v :: v in ProgVisits(cs) <==> v in ProgVisits(rest) || v in Visits(c);
    }
  }

  lemma {:induction false} ShapedAll(cs: seq<PCall>)
    requires WellFormed(cs) && Validated(cs)
    ensures forall c :: c in cs ==> WellShaped(c) && (c.ret.Some? ==> c.ret.value.res.None?)
  {
    forall c | c in cs ensures WellShaped(c) && (c.ret.Some? ==> c.ret.value.res.None?) {
      var k :| 0 <= k < |cs| && cs[k] == c;
      assert WellShaped(cs[k]);
    }
  }

  /** All users of the last resource are arguments that are not written: in memory, and output or empty. */
  ghost predicate LastUnseen(cs: seq<PCall>) {
    var ids := AllProduced(cs);
    |ids| > 0 && forall v :: v in ProgVisits(cs) && Refers(v.arg, ids[|ids| - 1]) ==> !IsWritten(v)
  }

  lemma {:induction false} SeenIff(cs: seq<PCall>)
    requires WellFormed(cs) && Validated(cs)
    ensures LastWritten(cs) <==> !LastUnseen(cs)
  {
    ShapedAll(cs);
    var ids := AllProduced(cs);
    if |ids| > 0 { AllWrittenIff(cs, ids[|ids| - 1]); }
  }

  lemma {:induction false} ProducedVisit(vs: seq<Visit>, id: nat) returns (v: Visit)
    requires id in UsedIds(vs)
    ensures v in vs && Used(v.arg) && v.arg.id == id
  {
    v := vs[0];
    if !(Used(v.arg) && v.arg.id == id) { v := ProducedVisit(vs[1..], id); }
  }

  lemma {:induction false} ProducedSomewhere(cs: seq<PCall>, id: nat) returns (v: Visit)
    requires id in AllProduced(cs)
    ensures v in ProgVisits(cs) && Used(v.arg) && v.arg.id == id
  {
    var n := |cs| - 1;
    if id in Produced(cs[n]) { v := ProducedVisit(Visits(cs[n]), id); } else { v := ProducedSomewhere(cs[..n], id); }
  }

  /** Every reference is in an argument that is written. */
  ghost predicate RefsWritten(cs: seq<PCall>) {
    forall v :: v in ProgVisits(cs) && v.arg.PResult? && v.arg.res.Some? ==> IsWritten(v)
  }

  /** In a validated program every resource produced has a user, so written references suffice. */
  lemma {:induction false} WrittenSuffices(cs: seq<PCall>)
    requires WellFormed(cs) && Validated(cs) && RefsWritten(cs)
    ensures LastWritten(cs)
  {
    var ids := AllProduced(cs);
    if |ids| > 0 {
      var id := ids[|ids| - 1];
      var a := ProducedSomewhere(cs, id);
      var u :| u in a.arg.uses;
      assert UsedBy(ProgVisits(cs), id, u);
      var b :| b in ProgVisits(cs) && Refers(b.arg, id) && b.arg.id == u;
      SeenIff(cs);
    }
  }

  // ----- programs whose fields fit the format -----

  /** Sizes and formats fit where the format packs them. */
  predicate Fits(a: PArg)
    decreases a
  {
    match a
    case PConst(_, _, _, _, size, format, _, off, len, pid) =>
      size < 256 && format < 256 && off < 256 && len < 256 && pid < 0x1_0000_0000
    case PResult(size, _, _, _, _, format, _, _, _, _) => size < 256 && format < 256
    case PData(_, _, data, _) => |data| < READABLE
    case PUnion(_, _, o) => Fits(o)
    case _ => true
  }

  /** An argument of the call itself: a constant, an address or a result. */
  predicate InRegister(a: PArg)
    decreases a
  {
    match a
    case PData(_, _, _, _) => false
    case PGroup(_, _, _, _) => false
    case PUnion(_, _, o) => InRegister(o)
    case _ => true
  }

  predicate FitsCall(t: Target, c: PCall) {
    && c.id < t.syscalls && |c.args| < TWO64
    && (forall a :: a in c.args ==> Fits(a) && InRegister(a))
    && (forall v :: v in Visits(c) ==> Fits(v.arg))
    && (forall k :: k in c.csums ==> |k.chunks| < TWO64)
  }

  lemma {:induction false} LowerFits(m: Infos, a: PArg)
    requires Fits(a)
    ensures Lower(m, a).Some? ==> ValidArg(Lower(m, a).value) && (InRegister(a) ==> ValidCallArg(Lower(m, a).value))
    decreases a
  {
    if a.PUnion? { LowerFits(m, a.option); }
  }

  lemma {:induction false} LowerAllFits(m: Infos, args: seq<PArg>)
    requires forall a :: a in args ==> Fits(a) && InRegister(a)
    ensures LowerAll(m, args).Some? ==> forall x :: x in LowerAll(m, args).value ==> ValidCallArg(x)
  {
    if |args| > 0 {
      LowerFits(m, args[0]);
      LowerAllFits(m, args[1..]);
    }
  }

  lemma {:induction false} WritesFit(m: Infos, vs: seq<Visit>)
    requires forall v :: v in vs ==> Fits(v.arg)
    ensures MemoryWrites(m, vs).Some? ==> forall x :: x in MemoryWrites(m, vs).value ==> ValidArg(x.arg)
    decreases |vs|
  {
    if |vs| > 0 {
      assert vs[0] in vs && forall w :: w in vs[1..] ==> w in vs;
      LowerFits(m, vs[0].arg);
      WritesFit(m, vs[1..]);
    }
  }

  lemma {:induction false} SumsFit(z: uint64, vs: seq<Visit>, ks: seq<PCsum>)
    requires forall k :: k in ks ==> |k.chunks| < TWO64
    ensures forall x :: x in FromLast(z, vs, ks) ==> ValidArg(x.arg)
  {
    if |ks| > 0 {
      assert ks[|ks| - 1] in ks;
      SumsFit(z, vs, ks[..|ks| - 1]);
    }
  }

  lemma {:induction false} CallFits(t: Target, z: uint64, m: Infos, ids: seq<nat>, c: PCall, e: ExecCall<Arg>)
    requires FitsCall(t, c) && GoodCall(z, m, ids, c, e)
    ensures ValidCall(t, e)
  {
    LowerAllFits(m, c.args);
    LowerAllLength(m, c.args);
    WritesFit(m, Visits(c));
    var key := FieldKey(z, Visits(c));
    SortBag(c.csums, key);
    forall k | k in Sort(c.csums, key) ensures |k.chunks| < TWO64 {
      assert k in multiset(Sort(c.csums, key));
    }
    SumsFit(z, Visits(c), Sort(c.csums, key));
    CopyinsFit(MemoryWrites(m, Visits(c)).value, Checksums(z, Visits(c), c.csums), e.copyin);
  }

  lemma {:induction false} CopyinsFit(ws: seq<ExecCopyin<Arg>>, sums: seq<ExecCopyin<Arg>>, all: seq<ExecCopyin<Arg>>)
    requires all == ws + sums
    requires forall x :: x in ws ==> ValidArg(x.arg)
    requires forall x :: x in sums ==> ValidArg(x.arg)
    ensures forall i :: 0 <= i < |all| ==> ValidArg(all[i].arg)
  {
  }

  lemma {:induction false} ProgramFits(t: Target, cs: seq<PCall>)
    requires WellFormed(cs) && forall c :: c in cs ==> FitsCall(t, c)
    ensures SerializeCalls(t.dataOffset, cs).Some? && |SerializeCalls(t.dataOffset, cs).value.calls| == |cs|
    ensures forall k :: 0 <= k < |cs| ==> ValidCall(t, SerializeCalls(t.dataOffset, cs).value.calls[k])
  {
    var z := t.dataOffset;
    IndicesAreDense(z, cs);
    forall k | 0 <= k < |cs| ensures ValidCall(t, SerializeCalls(z, cs).value.calls[k]) {
      CallsAreGood(z, cs, k);
      CallFits(t, z, SerializeCalls(z, cs[..k]).value.m, AllProduced(cs[..k]), cs[k],
          SerializeCalls(z, cs).value.calls[k]);
    }
  }

  // ----- round trips -----

  /** The stream of a program, and the program that a decoder should get from it. */
  function Stream(t: Target, cs: seq<PCall>, acts: seq<Action>): seq<byte>
    requires SerializeCalls(t.dataOffset, cs).Some?
  {
    Serialize(t, SerializeCalls(t.dataOffset, cs).value.calls, acts)
  }

  function Expected(t: Target, cs: seq<PCall>, acts: seq<Action>): ExecProg
    requires SerializeCalls(t.dataOffset, cs).Some?
  {
    var calls := SerializeCalls(t.dataOffset, cs).value.calls;
    ExecProg(ViewCalls(calls), Vars(calls, |calls|), Sort(acts, FullKey()))
  }

  /** What serialization asks of a program and its config actions. */
  ghost predicate Serializable(t: Target, cs: seq<PCall>, acts: seq<Action>) {
    && t.Valid() && WellFormed(cs) && |cs| < TWO64 && |AllProduced(cs)| < NO_COPYOUT
    && (forall c :: c in cs ==> FitsCall(t, c))
    && (forall a :: a in acts ==> 0 <= a.before <= |cs|)
  }

  /**
   A program, serialized with its config actions and decoded again, gives back every call with its
   copyins, checksums, arguments and copyouts, and all actions in stable order; the decoder rejects
   it exactly if no written argument refers to the last resource that the program produces.
   */
  lemma {:induction false} ProgramRoundTrip(t: Target, cs: seq<PCall>, acts: seq<Action>)
    requires Serializable(t, cs, acts)
    ensures SerializeCalls(t.dataOffset, cs).Some? && |SerializeCalls(t.dataOffset, cs).value.calls| == |cs|
    ensures Deserialize(t, Stream(t, cs, acts)) == if LastWritten(cs) then Some(Expected(t, cs, acts)) else None
  {
    ProgramFits(t, cs);
    AcceptedIff(t.dataOffset, cs);
    ExecRoundTrip(t, SerializeCalls(t.dataOffset, cs).value.calls, acts);
  }

  /** For validated programs: rejected exactly if every user of the last resource is an argument not written. */
  lemma {:induction false} RejectedIff(t: Target, cs: seq<PCall>, acts: seq<Action>)
    requires Serializable(t, cs, acts) && Validated(cs)
    ensures SerializeCalls(t.dataOffset, cs).Some?
    ensures Deserialize(t, Stream(t, cs, acts)) == None <==> LastUnseen(cs)
  {
    ProgramRoundTrip(t, cs, acts);
    SeenIff(cs);
  }

  /** If all references are in written arguments, decoding inverts serialization. */
  lemma {:induction false} ValidatedRoundTrip(t: Target, cs: seq<PCall>, acts: seq<Action>)
    requires Serializable(t, cs, acts) && Validated(cs) && RefsWritten(cs)
    ensures SerializeCalls(t.dataOffset, cs).Some?
    ensures Deserialize(t, Stream(t, cs, acts)) == Some(Expected(t, cs, acts))
  {
    ProgramRoundTrip(t, cs, acts);
    WrittenSuffices(cs);
  }

  // ----- a program that is rejected -----

  /** The return value of the first call is used only by an output argument in memory of the second. */
  const MAKER: PArg := PResult(8, Out, 0, {1}, None, 0, 0, 0, 0, 0)
  const TAKER: PArg := PResult(8, Out, 1, {}, Some(0), 0, 0, 0, 0, 0)
  const HOLDER: PArg := PPointer(8, In, 0x2000_0000, Some(TAKER))
  const FIRST: PCall := PCall(Some(MAKER), 0, NO_PROPS, [], [])
  const SECOND: PCall := PCall(None, 0, NO_PROPS, [HOLDER], [])
  const REJECTED: seq<PCall> := [FIRST, SECOND]

  lemma {:induction false} RejectedVisits()
    ensures Visits(FIRST) == [Visit(MAKER, None, 0)]
    ensures Visits(SECOND) == [Visit(HOLDER, None, 0), Visit(TAKER, Some(0x2000_0000), 0)]
    ensures ProgVisits(REJECTED) == [Visit(MAKER, None, 0), Visit(HOLDER, None, 0), Visit(TAKER, Some(0x2000_0000), 0)]
    ensures AllProduced(REJECTED) == [0] && AllProduced([FIRST]) == [0] && AllProduced([]) == []
  {
    assert VisitArg(MAKER, None, 0) == [Visit(MAKER, None, 0)];
    assert VisitArg(TAKER, Some(0x2000_0000), 0) == [Visit(TAKER, Some(0x2000_0000), 0)];
    assert VisitArgs([]) == [];
    assert VisitArgs([HOLDER]) == VisitArg(HOLDER, None, 0) + VisitArgs([HOLDER][1..]);
    assert [HOLDER][1..] == [];
    assert REJECTED[..1] == [FIRST] && [FIRST][..0] == [];
    assert ProgVisits([]) == [] && ProgVisits([FIRST]) == ProgVisits([FIRST][..0]) + Visits(FIRST);
    assert UsedIds([Visit(MAKER, None, 0)]) == [0] + UsedIds([]);
    var vs := Visits(SECOND);
    assert vs[1..] == [Visit(TAKER, Some(0x2000_0000), 0)] && vs[1..][1..] == [];
    assert UsedIds(vs[1..][1..]) == [] && UsedIds(vs[1..]) == [] && UsedIds(vs) == [];
    assert AllProduced([]) == [] && AllProduced([FIRST]) == AllProduced([FIRST][..0]) + Produced(FIRST);
  }

  lemma {:induction false} RejectedIsWellFormed()
    ensures WellFormed(REJECTED)
  {
    RejectedVisits();
    assert REJECTED[..0] == [] && REJECTED[..1] == [FIRST];
  }

  lemma {:induction false} RejectedIsValidated()
    ensures Validated(REJECTED) && LastUnseen(REJECTED)
  {
    RejectedVisits();
    var vs := ProgVisits(REJECTED);
    assert UsedBy(vs, 0, 1) by { assert vs[2] in vs && Refers(vs[2].arg, 0); }
    assert UseOf(vs, 0, 1) by { assert vs[0] in vs; }
  }

  lemma {:induction false} RejectedFits(t: Target, c: PCall)
    requires t.syscalls > 0 && c in REJECTED
    ensures FitsCall(t, c)
  {
    RejectedVisits();
  }

  /** The decoder rejects a validated program. */
  lemma {:induction false} RejectedProgram(t: Target)
    requires t.Valid() && t.syscalls > 0
    ensures Serializable(t, REJECTED, []) && Validated(REJECTED) && SerializeCalls(t.dataOffset, REJECTED).Some?
    ensures Deserialize(t, Stream(t, REJECTED, [])) == None
  {
    RejectedIsSerializable(t);
    RejectedIsValidated();
    RejectedIff(t, REJECTED, []);
  }

  lemma {:induction false} RejectedIsSerializable(t: Target)
    requires t.Valid() && t.syscalls > 0
    ensures Serializable(t, REJECTED, [])
  {
    RejectedVisits();
    RejectedIsWellFormed();
    forall c | c in REJECTED ensures FitsCall(t, c) { RejectedFits(t, c); }
  }
}
