/**
 What result arguments mean at run time: the executor's table, indexed by numbers that the writer
 gave out, holds for every reference the value last recorded for exactly the resource it names.
 */
module ExecValues {
  import opened Basics
  import opened Counting
  import opened Bits
  import opened Varint
  import opened StableOrder
  import opened ExecFormat
  import opened ExecStream
  import opened ExecResources
  import opened ExecCode
  import opened ExecWriter
  import opened ExecScan
  import opened ExecRun
  import L = ExecLayout
  import S = Squash

  /** The completion of a call: its return value and the memory that is then read. */
  datatype Done = Done(call: nat, res: uint64, mem: Memory)

  predicate InRange(ds: seq<Done>, n: nat) { forall i :: 0 <= i < |ds| ==> ds[i].call < n }

  // ----- by resource: no indices, no instructions -----

  function Give(s: Slot, v: Option<uint64>): Slot { if v.None? then s else Slot(true, v.value) }

  /** What is in memory for a resource among the given arguments. */
  function Left(z: uint64, vs: seq<Visit>, mem: Memory, id: nat): Option<uint64>
    decreases |vs|
  {
    if |vs| == 0 then None
    else if Used(vs[0].arg) && vs[0].arg.id == id then mem(Home(z, vs[0]), Wrap(vs[0].arg.size))
    else Left(z, vs[1..], mem, id)
  }

  /** What a completion of call c tells about a resource: nothing if the call failed. */
  function Told(z: uint64, c: PCall, res: uint64, mem: Memory, id: nat): Option<uint64> {
    if res == CALL_FAILED then None
    else if RetUsed(c) && c.ret.value.id == id then Some(res) else Left(z, VisitArgs(c.args), mem, id)
  }

  /** The value a resource has after the given completions, in this order. */
  function Latest(z: uint64, cs: seq<PCall>, ds: seq<Done>, id: nat): Slot
    requires InRange(ds, |cs|)
  {
    if |ds| == 0 then Slot(false, 0)
    else
      var d := ds[|ds| - 1];
      Give(Latest(z, cs, ds[..|ds| - 1], id), Told(z, cs[d.call], d.res, d.mem, id))
  }

  /** A constant for process pid, a big-endian one with its low bytes in reverse if it goes to a register. */
  function Constant(pid: uint64, register: bool, size: nat, format: nat, value: uint64, stride: nat): int {
    var v := (value + stride * pid) % 0x1_0000_0000_0000_0000;
    if register && format == 1 && (size == 2 || size == 4 || size == 8) then S.FromLe(S.Reverse(S.Le(v, size))) else v
  }

  /** What an argument stands for: a constant, an address, or the value of the resource that it refers to. */
  ghost function Meaning(z: uint64, pid: uint64, cs: seq<PCall>, ds: seq<Done>, register: bool, a: PArg): seq<int>
    requires InRange(ds, |cs|)
    decreases a
  {
    match a
    case PConst(_, _, _, _, size, format, v, _, _, stride) => [Constant(pid, register, size, format, v, stride)]
    case PResult(size, _, _, _, res, format, v, div, add, d) =>
      if res.None? then [Constant(pid, register, size, format, v, 0)]
      else [PromisedValue(Latest(z, cs, ds, res.value), div, add, d)]
    case PPointer(_, _, addr, _) => [addr]
    case PUnion(_, _, o) => Meaning(z, pid, cs, ds, register, o)
    case _ => []
  }

  ghost function Meanings(z: uint64, pid: uint64, cs: seq<PCall>, ds: seq<Done>, args: seq<PArg>): seq<int>
    requires InRange(ds, |cs|)
  {
    if |args| == 0 then [] else Meaning(z, pid, cs, ds, true, args[0]) + Meanings(z, pid, cs, ds, args[1..])
  }

  // ----- by index: the executor's table -----

  ghost predicate Fitting(es: seq<ExecCall<Arg>>) {
    forall k :: 0 <= k < |es| ==> FittingCall(es[k])
  }

  predicate FittingCall(e: ExecCall<Arg>) {
    (e.index == NO_COPYOUT || e.index < MAX_COMMANDS) && forall o :: o in e.copyout ==> o.index < MAX_COMMANDS
  }

  function Complete(slots: seq<Slot>, e: ExecCall<Arg>, res: uint64, mem: Memory): (r: seq<Slot>)
    requires FittingCall(e) && |slots| == MAX_COMMANDS
    ensures |r| == MAX_COMMANDS
    ensures Completed(slots, e, res, mem) == if res == CALL_FAILED || Sized(e.copyout) then Some(r) else None
  {
    if res == CALL_FAILED then slots
    else Record(if e.index == NO_COPYOUT then slots else slots[e.index := Slot(true, res)], e.copyout, mem)
  }

  ghost function CompleteWith(slots: seq<Slot>, es: seq<ExecCall<Arg>>, d: Done): (r: seq<Slot>)
    requires d.call < |es| && FittingCall(es[d.call]) && |slots| == MAX_COMMANDS
    ensures |r| == MAX_COMMANDS
  {
    Complete(slots, es[d.call], d.res, d.mem)
  }

  ghost function Table(es: seq<ExecCall<Arg>>, ds: seq<Done>): (r: seq<Slot>)
    requires Fitting(es) && InRange(ds, |es|)
    ensures |r| == MAX_COMMANDS
  {
    if |ds| == 0 then Nothing()
    else CompleteWith(Table(es, ds[..|ds| - 1]), es, ds[|ds| - 1])
  }

  lemma {:induction false} TableNext(es: seq<ExecCall<Arg>>, ds: seq<Done>, d: Done)
    requires Fitting(es) && InRange(ds, |es|) && d.call < |es|
    ensures InRange(ds + [d], |es|) && FittingCall(es[d.call])
    ensures Completed(Table(es, ds), es[d.call], d.res, d.mem) ==
            if d.res == CALL_FAILED || Sized(es[d.call].copyout) then Some(Table(es, ds + [d])) else None
  {
    assert (ds + [d])[..|ds|] == ds;
    assert Table(es, ds + [d]) == CompleteWith(Table(es, ds), es, d);
  }

  // ----- one completion -----

  lemma {:induction false} LeftNone(z: uint64, vs: seq<Visit>, mem: Memory, id: nat)
    requires id !in UsedIds(vs)
    ensures Left(z, vs, mem, id) == None
    decreases |vs|
  {
    if |vs| > 0 { LeftNone(z, vs[1..], mem, id); }
  }

  lemma {:induction false} LeftFirst(z: uint64, vs: seq<Visit>, mem: Memory, j: nat)
    requires |vs| > 0 && Used(vs[0].arg) && j < |UsedIds(vs)| && Distinct(UsedIds(vs))
    ensures Left(z, vs, mem, UsedIds(vs)[j]) ==
            if j == 0 then mem(Home(z, vs[0]), Wrap(vs[0].arg.size)) else Left(z, vs[1..], mem, UsedIds(vs[1..])[j - 1])
  {
    assert UsedIds(vs)[0] == vs[0].arg.id;
  }

  /** Recording the copyouts of a traversal gives each resource its own value and nothing else. */
  lemma {:induction false} RecordGives(z: uint64, n: nat, vs: seq<Visit>, slots: seq<Slot>, mem: Memory, i: nat)
    requires |slots| == MAX_COMMANDS && n + |UsedIds(vs)| <= MAX_COMMANDS && Distinct(UsedIds(vs)) && i < MAX_COMMANDS
    ensures forall o :: o in Copyouts(z, n, vs) ==> o.index < MAX_COMMANDS
    ensures Record(slots, Copyouts(z, n, vs), mem)[i] ==
            if n <= i < n + |UsedIds(vs)| then Give(slots[i], Left(z, vs, mem, UsedIds(vs)[i - n])) else slots[i]
    decreases |vs|
  {
    if |vs| == 0 {
    } else if !Used(vs[0].arg) {
      assert UsedIds(vs) == UsedIds(vs[1..]);
      RecordGives(z, n, vs[1..], slots, mem, i);
    } else {
      var os := Copyouts(z, n, vs);
      WrapSmall(n);
      assert UsedIds(vs)[1..] == UsedIds(vs[1..]) && os[1..] == Copyouts(z, n + 1, vs[1..]);
      DistinctTail(UsedIds(vs));
      RecordGives(z, n + 1, vs[1..], Note(slots, os[0], mem), mem, i);
      assert forall o :: o in os ==> o == os[0] || o in os[1..];
      if n <= i < n + |UsedIds(vs)| { LeftFirst(z, vs, mem, i - n); }
    }
  }

  /** The resources of a call: its return value and what its arguments leave in memory. */
  lemma {:induction false} ProducedParts(c: PCall)
    requires WellShaped(c)
    ensures Produced(c) == (if RetUsed(c) then [c.ret.value.id] else []) + UsedIds(VisitArgs(c.args))
  {
    if c.ret.Some? {
      assert VisitArg(c.ret.value, None, 0) == [Visit(c.ret.value, None, 0)];
      assert Visits(c)[0] == Visit(c.ret.value, None, 0) && Visits(c)[1..] == VisitArgs(c.args);
    } else {
      assert Visits(c) == VisitArgs(c.args);
    }
  }

  lemma {:induction false} ToldNone(z: uint64, c: PCall, res: uint64, mem: Memory, id: nat)
    requires WellShaped(c) && id !in Produced(c)
    ensures Told(z, c, res, mem, id) == None
  {
    ProducedParts(c);
    LeftNone(z, VisitArgs(c.args), mem, id);
  }

  /** The value of the resource in slot i, if it is one of p, from n on; otherwise what was there. */
  function Given(z: uint64, c: PCall, n: nat, p: seq<nat>, slots: seq<Slot>, res: uint64, mem: Memory, i: nat): Slot
    requires i < |slots|
  {
    if n <= i < n + |p| then Give(slots[i], Told(z, c, res, mem, p[i - n])) else slots[i]
  }

  lemma {:induction false} PlainGives(z: uint64, c: PCall, n: nat, slots: seq<Slot>, res: uint64, mem: Memory, i: nat)
    requires !RetUsed(c) && res != CALL_FAILED && |slots| == MAX_COMMANDS && i < MAX_COMMANDS
    requires n + |UsedIds(VisitArgs(c.args))| <= MAX_COMMANDS && Distinct(UsedIds(VisitArgs(c.args)))
    ensures forall o :: o in Copyouts(z, n, VisitArgs(c.args)) ==> o.index < MAX_COMMANDS
    ensures Record(slots, Copyouts(z, n, VisitArgs(c.args)), mem)[i] ==
            Given(z, c, n, UsedIds(VisitArgs(c.args)), slots, res, mem, i)
  {
    RecordGives(z, n, VisitArgs(c.args), slots, mem, i);
  }

  lemma {:induction false} ReturnGives(z: uint64, c: PCall, n: nat, p: seq<nat>, slots: seq<Slot>, res: uint64,
                                       mem: Memory, i: nat)
    requires RetUsed(c) && res != CALL_FAILED && p == [c.ret.value.id] + UsedIds(VisitArgs(c.args)) && Distinct(p)
    requires n + |p| <= MAX_COMMANDS == |slots| && i < MAX_COMMANDS
    ensures forall o :: o in Copyouts(z, n + 1, VisitArgs(c.args)) ==> o.index < MAX_COMMANDS
    ensures Record(slots[n := Slot(true, res)], Copyouts(z, n + 1, VisitArgs(c.args)), mem)[i] ==
            Given(z, c, n, p, slots, res, mem, i)
  {
    assert p[1..] == UsedIds(VisitArgs(c.args));
    DistinctTail(p);
    RecordGives(z, n + 1, VisitArgs(c.args), slots[n := Slot(true, res)], mem, i);
    if n < i < n + |p| { assert p[i - n] == UsedIds(VisitArgs(c.args))[i - n - 1]; }
  }

  lemma {:induction false} PlainCompletes(z: uint64, n: nat, c: PCall, e: ExecCall<Arg>, slots: seq<Slot>, res: uint64,
                                          mem: Memory, i: nat)
    requires !RetUsed(c) && FittingCall(e) && res != CALL_FAILED && |slots| == MAX_COMMANDS && i < MAX_COMMANDS
    requires e.index == NO_COPYOUT && e.copyout == Copyouts(z, n, VisitArgs(c.args))
    requires n + |UsedIds(VisitArgs(c.args))| <= MAX_COMMANDS && Distinct(UsedIds(VisitArgs(c.args)))
    ensures Complete(slots, e, res, mem)[i] == Given(z, c, n, UsedIds(VisitArgs(c.args)), slots, res, mem, i)
  {
    PlainGives(z, c, n, slots, res, mem, i);
  }

  lemma {:induction false} ReturnCompletes(z: uint64, n: nat, c: PCall, e: ExecCall<Arg>, p: seq<nat>, slots: seq<Slot>,
                                           res: uint64, mem: Memory, i: nat)
    requires RetUsed(c) && FittingCall(e) && res != CALL_FAILED && i < MAX_COMMANDS
    requires e.index == n && e.copyout == Copyouts(z, n + 1, VisitArgs(c.args))
    requires p == [c.ret.value.id] + UsedIds(VisitArgs(c.args)) && Distinct(p) && n + |p| <= MAX_COMMANDS == |slots|
    ensures Complete(slots, e, res, mem)[i] == Given(z, c, n, p, slots, res, mem, i)
  {
    ReturnGives(z, c, n, p, slots, res, mem, i);
  }

  lemma {:induction false} SuccessGives(z: uint64, m: Infos, ids: seq<nat>, c: PCall, e: ExecCall<Arg>,
                                        slots: seq<Slot>, res: uint64, mem: Memory, i: nat)
    requires WellShaped(c) && GoodCall(z, m, ids, c, e) && FittingCall(e) && res != CALL_FAILED
    requires |ids| + |Produced(c)| <= MAX_COMMANDS && Distinct(Produced(c)) && |slots| == MAX_COMMANDS
             && i < MAX_COMMANDS
    ensures Complete(slots, e, res, mem)[i] == Given(z, c, |ids|, Produced(c), slots, res, mem, i)
  {
    ProducedParts(c);
    if RetUsed(c) {
      WrapSmall(|ids|);
      ReturnCompletes(z, |ids|, c, e, Produced(c), slots, res, mem, i);
    } else {
      assert Produced(c) == UsedIds(VisitArgs(c.args));
      PlainCompletes(z, |ids|, c, e, slots, res, mem, i);
    }
  }

  /** Its completion gives the resources of a call their values, if it succeeded, and leaves all other slots alone. */
  lemma {:induction false} CallGives(z: uint64, m: Infos, ids: seq<nat>, c: PCall, e: ExecCall<Arg>, slots: seq<Slot>,
                                     res: uint64, mem: Memory, i: nat)
    requires WellShaped(c) && GoodCall(z, m, ids, c, e) && FittingCall(e)
    requires |ids| + |Produced(c)| <= MAX_COMMANDS && Distinct(Produced(c)) && |slots| == MAX_COMMANDS
             && i < MAX_COMMANDS
    ensures Complete(slots, e, res, mem)[i] == Given(z, c, |ids|, Produced(c), slots, res, mem, i)
  {
    if res == CALL_FAILED {
      assert Complete(slots, e, res, mem) == slots;
    } else {
      SuccessGives(z, m, ids, c, e, slots, res, mem, i);
    }
  }

  /** Slot i is that of id if it is among those from n on for the resources p; otherwise id is none of them. */
  predicate Owner(n: nat, p: seq<nat>, i: nat, id: nat) {
    if n <= i < n + |p| then p[i - n] == id else id !in p
  }

  /** The same for the resource of one slot. */
  lemma {:induction false} CallTells(z: uint64, m: Infos, ids: seq<nat>, c: PCall, e: ExecCall<Arg>, slots: seq<Slot>,
                                     res: uint64, mem: Memory, i: nat, id: nat)
    requires WellShaped(c) && GoodCall(z, m, ids, c, e) && FittingCall(e)
    requires |ids| + |Produced(c)| <= MAX_COMMANDS && Distinct(Produced(c)) && |slots| == MAX_COMMANDS
             && i < MAX_COMMANDS
    requires Owner(|ids|, Produced(c), i, id)
    ensures Complete(slots, e, res, mem)[i] == Give(slots[i], Told(z, c, res, mem, id))
  {
    CallGives(z, m, ids, c, e, slots, res, mem, i);
    if id !in Produced(c) { ToldNone(z, c, res, mem, id); }
  }

  // ----- all completions -----

  /** The resources of call k stand in one piece, behind those of the calls before it. */
  lemma {:induction false} ProducedAt(cs: seq<PCall>, k: nat)
    requires k < |cs|
    ensures AllProduced(cs[..k]) + Produced(cs[k]) <= AllProduced(cs)
  {
    var n := |cs| - 1;
    if k == n {
    } else {
      ProducedAt(cs[..n], k);
      assert cs[..n][..k] == cs[..k];
    }
  }

  /** Either slot i belongs to call k, or call k knows nothing of its resource. */
  lemma {:induction false} OwnerOnly(cs: seq<PCall>, k: nat, i: nat)
    requires k < |cs| && Distinct(AllProduced(cs)) && i < |AllProduced(cs)|
    ensures |AllProduced(cs[..k])| + |Produced(cs[k])| <= |AllProduced(cs)| && Distinct(Produced(cs[k]))
    ensures Owner(|AllProduced(cs[..k])|, Produced(cs[k]), i, AllProduced(cs)[i])
  {
    var all, a, p := AllProduced(cs), AllProduced(cs[..k]), Produced(cs[k]);
    ProducedAt(cs, k);
    assert forall j :: 0 <= j < |p| ==> p[j] == all[|a| + j];
  }

  lemma {:induction false} SerializedFits(z: uint64, cs: seq<PCall>)
    requires WellFormed(cs) && |AllProduced(cs)| <= MAX_COMMANDS
    ensures SerializeCalls(z, cs).Some? && |SerializeCalls(z, cs).value.calls| == |cs|
    ensures Fitting(SerializeCalls(z, cs).value.calls)
  {
    IndicesAreDense(z, cs);
    if |cs| > 0 { IndicesFit(z, cs, 0); }
    forall k | 0 <= k < |cs| ensures FittingCall(SerializeCalls(z, cs).value.calls[k]) { IndicesFit(z, cs, k); }
  }

  lemma {:induction false} CompletionGives(z: uint64, cs: seq<PCall>, k: nat, slots: seq<Slot>, res: uint64,
                                           mem: Memory, i: nat)
    requires WellFormed(cs) && |AllProduced(cs)| <= MAX_COMMANDS && k < |cs| && i < |AllProduced(cs)|
             && |slots| == MAX_COMMANDS
    ensures SerializeCalls(z, cs).Some? && |SerializeCalls(z, cs).value.calls| == |cs|
    ensures FittingCall(SerializeCalls(z, cs).value.calls[k])
    ensures Complete(slots, SerializeCalls(z, cs).value.calls[k], res, mem)[i] ==
            Give(slots[i], Told(z, cs[k], res, mem, AllProduced(cs)[i]))
  {
    SerializedFits(z, cs);
    CallsAreGood(z, cs, k);
    OwnerOnly(cs, k, i);
    assert WellShaped(cs[k]);
    CallTells(z, SerializeCalls(z, cs[..k]).value.m, AllProduced(cs[..k]), cs[k], SerializeCalls(z, cs).value.calls[k],
              slots, res, mem, i, AllProduced(cs)[i]);
  }

  /**
   The table is right: after any completions, in any order, the slot of a resource holds the value
   that the calls producing it last left for it, and is empty if there was none.
   */
  lemma {:induction false} TableIsLatest(z: uint64, cs: seq<PCall>, ds: seq<Done>, i: nat)
    requires WellFormed(cs) && |AllProduced(cs)| <= MAX_COMMANDS && InRange(ds, |cs|) && i < |AllProduced(cs)|
    ensures SerializeCalls(z, cs).Some? && |SerializeCalls(z, cs).value.calls| == |cs|
    ensures Fitting(SerializeCalls(z, cs).value.calls)
    ensures Table(SerializeCalls(z, cs).value.calls, ds)[i] == Latest(z, cs, ds, AllProduced(cs)[i])
    decreases |ds|
  {
    SerializedFits(z, cs);
    if |ds| > 0 {
      var es, d, init := SerializeCalls(z, cs).value.calls, ds[|ds| - 1], ds[..|ds| - 1];
      TableIsLatest(z, cs, init, i);
      CompletionGives(z, cs, d.call, Table(es, init), d.res, d.mem, i);
    }
  }

  /** A failed completion leaves every slot, and so the value of every resource, as it was. */
  lemma {:induction false} FailureKeeps(z: uint64, cs: seq<PCall>, es: seq<ExecCall<Arg>>, ds: seq<Done>, k: nat,
                                        mem: Memory, id: nat)
    requires Fitting(es) && |es| == |cs| && InRange(ds, |cs|) && k < |cs|
    ensures InRange(ds + [Done(k, CALL_FAILED, mem)], |cs|)
    ensures Table(es, ds + [Done(k, CALL_FAILED, mem)]) == Table(es, ds)
    ensures Latest(z, cs, ds + [Done(k, CALL_FAILED, mem)], id) == Latest(z, cs, ds, id)
  {
    var d := Done(k, CALL_FAILED, mem);
    TableNext(es, ds, d);
    assert (ds + [d])[..|ds|] == ds && (ds + [d])[|ds|] == d;
  }

  /** If all calls that make a resource fail, references to it read their default. */
  lemma {:induction false} NeverMade(z: uint64, cs: seq<PCall>, ds: seq<Done>, id: nat)
    requires InRange(ds, |cs|) && forall k :: 0 <= k < |cs| ==> WellShaped(cs[k])
    requires forall i :: 0 <= i < |ds| && id in Produced(cs[ds[i].call]) ==> ds[i].res == CALL_FAILED
    ensures Latest(z, cs, ds, id) == Slot(false, 0)
    decreases |ds|
  {
    if |ds| > 0 {
      var d := ds[|ds| - 1];
      NeverMade(z, cs, ds[..|ds| - 1], id);
      if id !in Produced(cs[d.call]) { ToldNone(z, cs[d.call], d.res, d.mem, id); }
    }
  }

  // ----- sizes -----

  /** Every used resource in memory has a size that copyout can read. */
  predicate Readable(c: PCall) {
    forall v :: v in VisitArgs(c.args) && Used(v.arg) ==> CopySize(Wrap(v.arg.size))
  }

  lemma {:induction false} CopyoutsSized(z: uint64, n: nat, vs: seq<Visit>)
    ensures Sized(Copyouts(z, n, vs)) <==> forall v :: v in vs && Used(v.arg) ==> CopySize(Wrap(v.arg.size))
    decreases |vs|
  {
    if |vs| > 0 {
      assert forall v :: v in vs <==> v == vs[0] || v in vs[1..];
      if Used(vs[0].arg) {
        CopyoutsSized(z, n + 1, vs[1..]);
        SizedCons(Copyouts(z, n, vs));
        assert Copyouts(z, n, vs)[1..] == Copyouts(z, n + 1, vs[1..]);
      } else {
        CopyoutsSized(z, n, vs[1..]);
      }
    }
  }

  // ----- what arguments read -----

  /** The slots of these resources are right. */
  predicate Right(z: uint64, cs: seq<PCall>, ds: seq<Done>, ids: seq<nat>, slots: seq<Slot>)
    requires InRange(ds, |cs|)
  {
    |ids| <= |slots| == MAX_COMMANDS && forall j :: 0 <= j < |ids| ==> slots[j] == Latest(z, cs, ds, ids[j])
  }

  lemma {:induction false} PromiseKept(s: Slot, div: uint64, add: uint64, deflt: uint64)
    ensures Yield(s, div, add, deflt) == PromisedValue(s, div, add, deflt)
  {
    YieldIsPromised(s, div, add, deflt, PromisedValue(s, div, add, deflt));
  }

  /** A lowered argument reads what the argument means. */
  lemma {:induction false} ArgMeans(z: uint64, pid: uint64, cs: seq<PCall>, ds: seq<Done>, m: Infos, ids: seq<nat>,
                                    slots: seq<Slot>,
                                    register: bool, a: PArg, base: Option<uint64>, off: nat)
    requires InRange(ds, |cs|) && Right(z, cs, ds, ids, slots) && Indexed(m, ids)
    requires RefsIn(VisitArg(a, base, off), ids) && Lower(m, a).Some?
    ensures Yields(slots, pid, register, Lower(m, a).value) == Meaning(z, pid, cs, ds, register, a)
    decreases a
  {
    assert VisitArg(a, base, off)[0] == Visit(a, base, off);
    assert Visit(a, base, off) in VisitArg(a, base, off);
    if a.PUnion? {
      assert forall v :: v in VisitArg(a.option, base, off) ==> v in VisitArg(a, base, off);
      ArgMeans(z, pid, cs, ds, m, ids, slots, register, a.option, base, off);
    } else if a.PResult? && a.res.Some? {
      ReferenceIndex(m, ids, a);
      PromiseKept(Latest(z, cs, ds, a.res.value), a.opDiv, a.opAdd, a.deflt);
    }
  }

  lemma {:induction false} ArgsMean(z: uint64, pid: uint64, cs: seq<PCall>, ds: seq<Done>, m: Infos, ids: seq<nat>,
                                    slots: seq<Slot>,
                                    args: seq<PArg>)
    requires InRange(ds, |cs|) && Right(z, cs, ds, ids, slots) && Indexed(m, ids)
    requires RefsIn(VisitArgs(args), ids) && LowerAll(m, args).Some?
    ensures AllYields(slots, pid, LowerAll(m, args).value) == Meanings(z, pid, cs, ds, args)
  {
    if |args| > 0 {
      assert forall v :: v in VisitArg(args[0], None, 0) ==> v in VisitArgs(args);
      assert forall v :: v in VisitArgs(args[1..]) ==> v in VisitArgs(args);
      ArgMeans(z, pid, cs, ds, m, ids, slots, true, args[0], None, 0);
      ArgsMean(z, pid, cs, ds, m, ids, slots, args[1..]);
      YieldsCons(slots, pid, Lower(m, args[0]).value, LowerAll(m, args[1..]).value);
    }
  }

  /** The argument v is written to its address, and the values read for it are what it means. */
  ghost predicate Writes(z: uint64, pid: uint64, cs: seq<PCall>, ds: seq<Done>, v: Visit, addr: uint64, vals: seq<int>)
    requires InRange(ds, |cs|)
  {
    Emitted(v) && AddrOf(v) == addr && vals == [addr] + Meaning(z, pid, cs, ds, false, v.arg)
  }

  lemma {:induction false} WriteMeans(z: uint64, pid: uint64, cs: seq<PCall>, ds: seq<Done>, m: Infos, ids: seq<nat>,
                                      slots: seq<Slot>, vs: seq<Visit>, j: nat) returns (v: Visit)
    requires InRange(ds, |cs|) && Right(z, cs, ds, ids, slots) && Indexed(m, ids)
    requires RefsIn(vs, ids) && MemoryWrites(m, vs).Some? && j < |MemoryWrites(m, vs).value|
    ensures var w := MemoryWrites(m, vs).value[j];
            v in vs && Writes(z, pid, cs, ds, v, w.addr, [w.addr] + Yields(slots, pid, false, w.arg))
    decreases |vs|
  {
    v := vs[0];
    assert v in vs && forall w :: w in vs[1..] ==> w in vs;
    if !Emitted(v) {
      v := WriteMeans(z, pid, cs, ds, m, ids, slots, vs[1..], j);
    } else if j > 0 {
      v := WriteMeans(z, pid, cs, ds, m, ids, slots, vs[1..], j - 1);
    } else if v.arg.PResult? && v.arg.res.Some? {
      ReferenceIndex(m, ids, v.arg);
      PromiseKept(Latest(z, cs, ds, v.arg.res.value), v.arg.opDiv, v.arg.opAdd, v.arg.deflt);
    }
  }

  /** What stands at path p of the pointee t of c is written to its place, with what it means. */
  ghost predicate FieldWritten(z: uint64, pid: uint64, cs: seq<PCall>, ds: seq<Done>, c: PCall, base: uint64, t: PArg,
                               p: seq<nat>, addr: uint64, vals: seq<int>)
    requires InRange(ds, |cs|)
  {
    && L.Pointer(c, base, t) && L.Sub(t, p).Some? && L.Kept(L.Sub(t, p).value)
    && addr == L.Place(base, t, p) && vals == [addr] + Meaning(z, pid, cs, ds, false, L.Sub(t, p).value)
  }

  lemma {:induction false} WritesField(z: uint64, pid: uint64, cs: seq<PCall>, ds: seq<Done>, c: PCall, v: Visit,
                                       addr: uint64, vals: seq<int>)
    requires InRange(ds, |cs|) && v in Visits(c) && Writes(z, pid, cs, ds, v, addr, vals)
    ensures exists base, t, p :: FieldWritten(z, pid, cs, ds, c, base, t, p, addr, vals)
  {
    var base, t, p := L.PointeeOf(c, v);
    L.KeptEmitted(v);
    L.StandsAt(v, base, t, p);
    assert FieldWritten(z, pid, cs, ds, c, base, t, p, addr, vals);
  }

  // ----- the whole program -----

  /** The values that instruction x, with k calls before it, is to read when the completions ds have happened. */
  ghost predicate Means(z: uint64, pid: uint64, cs: seq<PCall>, ds: seq<Done>, k: nat, x: Instr<Arg>, vals: seq<uint64>)
    requires InRange(ds, |cs|)
  {
    match x
    case Call(_, _, _) => k < |cs| && vals == Meanings(z, pid, cs, ds, cs[k].args)
    case Copyin(addr, a) =>
      && k < |cs|
      && ((a.Csum? && vals == [addr]) ||
          exists base, t, p :: FieldWritten(z, pid, cs, ds, cs[k], base, t, p, addr, vals))
    case _ => vals == []
  }

  ghost predicate Runnable(z: uint64, cs: seq<PCall>, es: seq<ExecCall<Arg>>) {
    && WellFormed(cs) && |AllProduced(cs)| <= MAX_COMMANDS && Fitting(es)
    && SerializeCalls(z, cs).Some? && es == SerializeCalls(z, cs).value.calls && |es| == |cs|
  }

  lemma {:induction false} EarlierRight(z: uint64, cs: seq<PCall>, es: seq<ExecCall<Arg>>, ds: seq<Done>, k: nat)
    requires Runnable(z, cs, es) && InRange(ds, |cs|) && k < |cs|
    ensures Right(z, cs, ds, AllProduced(cs[..k]), Table(es, ds))
  {
    var ids := AllProduced(cs[..k]);
    ProducedAt(cs, k);
    forall j | 0 <= j < |ids| ensures Table(es, ds)[j] == Latest(z, cs, ds, ids[j]) {
      TableIsLatest(z, cs, ds, j);
    }
  }

  /** The values that a call reads are those of exactly the resources that its arguments name. */
  lemma {:induction false} CallMeans(z: uint64, pid: uint64, cs: seq<PCall>, es: seq<ExecCall<Arg>>, ds: seq<Done>,
                                     k: nat)
    requires Runnable(z, cs, es) && InRange(ds, |cs|) && k < |cs|
    ensures AllYields(Table(es, ds), pid, es[k].args) == Meanings(z, pid, cs, ds, cs[k].args)
  {
    EarlierRight(z, cs, es, ds, k);
    CallsAreGood(z, cs, k);
    VisitsParts(cs[k]);
    assert RefsIn(VisitArgs(cs[k].args), AllProduced(cs[..k]));
    ArgsMean(z, pid, cs, ds, SerializeCalls(z, cs[..k]).value.m, AllProduced(cs[..k]), Table(es, ds), cs[k].args);
  }

  lemma {:induction false} CopyinMeans(z: uint64, pid: uint64, cs: seq<PCall>, es: seq<ExecCall<Arg>>, ds: seq<Done>,
                                       k: nat, j: nat)
    requires Runnable(z, cs, es) && InRange(ds, |cs|) && k < |cs| && j < |es[k].copyin|
    ensures var w := es[k].copyin[j]; Means(z, pid, cs, ds, k, Copyin(w.addr, w.arg),
            [w.addr] + Yields(Table(es, ds), pid, false, w.arg))
  {
    EarlierRight(z, cs, es, ds, k);
    CallsAreGood(z, cs, k);
    CopyinIs(z, pid, cs, ds, SerializeCalls(z, cs[..k]).value.m, AllProduced(cs[..k]), Table(es, ds), k, es[k], j);
  }

  lemma {:induction false} CopyinIs(z: uint64, pid: uint64, cs: seq<PCall>, ds: seq<Done>, m: Infos, ids: seq<nat>,
                                    slots: seq<Slot>,
                                    k: nat, e: ExecCall<Arg>, j: nat)
    requires InRange(ds, |cs|) && Right(z, cs, ds, ids, slots) && Indexed(m, ids) && k < |cs|
    requires RefsIn(Visits(cs[k]), ids) && GoodCall(z, m, ids, cs[k], e) && j < |e.copyin|
    ensures var w := e.copyin[j];
            Means(z, pid, cs, ds, k, Copyin(w.addr, w.arg), [w.addr] + Yields(slots, pid, false, w.arg))
  {
    var vs := Visits(cs[k]);
    var ws, sums := MemoryWrites(m, vs).value, Checksums(z, vs, cs[k].csums);
    if j < |ws| {
      assert e.copyin[j] == ws[j];
      var v := WriteMeans(z, pid, cs, ds, m, ids, slots, vs, j);
      WritesField(z, pid, cs, ds, cs[k], v, ws[j].addr, [ws[j].addr] + Yields(slots, pid, false, ws[j].arg));
    } else {
      assert e.copyin[j] == sums[j - |ws|];
      ChecksumsAreSums(z, vs, Sort(cs[k].csums, FieldKey(z, vs)));
    }
  }

  /** What the reading loop finds at instruction n is what the program means there. */
  lemma {:induction false} InstrMeans(z: uint64, pid: uint64, cs: seq<PCall>, es: seq<ExecCall<Arg>>, acts: seq<Action>,
                                      ds: seq<Done>, n: nat)
    requires Runnable(z, cs, es) && InRange(ds, |cs|) && n < |Layout(es, acts, 0)|
    ensures var xs := Layout(es, acts, 0);
            Means(z, pid, cs, ds, CountCalls(xs[..n]), xs[n], InstrYields(Table(es, ds), pid, xs[n]))
  {
    var x, k := Layout(es, acts, 0)[n], CountCalls(Layout(es, acts, 0)[..n]);
    if x.Call? {
      CallAt(es, acts, n);
      CallMeans(z, pid, cs, es, ds, k);
    } else if x.Copyin? {
      var j := CopyinAt(es, acts, n);
      CopyinMeans(z, pid, cs, es, ds, k, j);
    }
  }

  /** The next instruction of a program reads the values its references name, as of the completions so far. */
  method Next(r: Reader, ghost z: uint64, ghost cs: seq<PCall>, ghost es: seq<ExecCall<Arg>>, ghost acts: seq<Action>,
              ghost ds: seq<Done>, ghost n: nat) returns (o: Outcome, vals: seq<uint64>)
    requires Runnable(z, cs, es) && InRange(ds, |cs|) && r.Tracks(es, acts, n) && n < |Layout(es, acts, 0)|
    requires r.results[..] == Table(es, ds)
    modifies r`pos, r`threads
    ensures var xs := Layout(es, acts, 0);
            && (o == Failed <==> !AcceptsInstr(xs[n])) && (o == Finished <==> xs[n].Eof?)
            && (o != Failed ==> r.Tracks(es, acts, n + 1) && Means(z, r.pid, cs, ds, CountCalls(xs[..n]), xs[n], vals))
  {
    InstrMeans(z, r.pid, cs, es, acts, ds, n);
    o, vals := r.Next(es, acts, n);
  }

  /** A completion at any time adds itself to the table; it fails exactly for a size that cannot be read. */
  method Finish(r: Reader, d: Done, ghost z: uint64, ghost cs: seq<PCall>, ghost es: seq<ExecCall<Arg>>,
                ghost acts: seq<Action>, ghost ds: seq<Done>, ghost n: nat)
    returns (ok: bool)
    requires Runnable(z, cs, es) && InRange(ds, |cs|) && r.Tracks(es, acts, n) && d.call < |r.threads|
    requires r.results[..] == Table(es, ds)
    modifies r.results
    ensures r.Tracks(es, acts, n) && d.call < |cs| && InRange(ds + [d], |cs|)
    ensures ok <==> Succeeds(cs, d)
    ensures ok ==> r.results[..] == Table(es, ds + [d])
  {
    TableNext(es, ds, d);
    CallsAreGood(z, cs, d.call);
    CopyoutsSized(z, |AllProduced(cs[..d.call])| + if RetUsed(cs[d.call]) then 1 else 0, VisitArgs(cs[d.call].args));
    ok := r.Complete(d.call, d.res, d.mem, es, acts, n);
  }

  /** A completion can be recorded. */
  predicate Succeeds(cs: seq<PCall>, d: Done)
    requires d.call < |cs|
  {
    d.res == CALL_FAILED || Readable(cs[d.call])
  }

  // ----- whole runs -----

  /** What happens next: a turn of the reading loop, or the completion of a call. */
  datatype Event = Turn | Return(d: Done)

  function Turns(evs: seq<Event>): nat {
    if |evs| == 0 then 0 else Turns(evs[..|evs| - 1]) + if evs[|evs| - 1].Turn? then 1 else 0
  }

  function Dones(evs: seq<Event>): seq<Done> {
    if |evs| == 0 then []
    else Dones(evs[..|evs| - 1]) + match evs[|evs| - 1] case Turn => [] case Return(d) => [d]
  }

  function Later(n: nat, e: Event): nat { if e.Turn? then n + 1 else n }

  function Added(ds: seq<Done>, e: Event): seq<Done> { if e.Turn? then ds else ds + [e.d] }

  /** The event can happen when n instructions are read. */
  predicate CanHappen(xs: seq<Instr<Arg>>, n: nat, e: Event) {
    if e.Turn? then n < |xs| else n <= |xs| && e.d.call < CountCalls(xs[..n])
  }

  /** Calls complete after they are scheduled, and nothing is read behind the end. */
  predicate Possible(xs: seq<Instr<Arg>>, evs: seq<Event>) {
    if |evs| == 0 then true
    else
      var init := evs[..|evs| - 1];
      Possible(xs, init) && CanHappen(xs, Turns(init), evs[|evs| - 1])
  }

  /** The executor takes the event. */
  predicate Taken(cs: seq<PCall>, xs: seq<Instr<Arg>>, n: nat, e: Event) {
    if e.Turn? then n < |xs| && AcceptsInstr(xs[n]) else e.d.call < |cs| && Succeeds(cs, e.d)
  }

  /** The values read are what the program means there, as of the completions so far. */
  ghost predicate Read(z: uint64, pid: uint64, cs: seq<PCall>, xs: seq<Instr<Arg>>, n: nat, ds: seq<Done>, e: Event,
                       vals: seq<uint64>) {
    e.Turn? ==> InRange(ds, |cs|) && n < |xs| && Means(z, pid, cs, ds, CountCalls(xs[..n]), xs[n], vals)
  }

  /** Event i is taken and reads the right values. */
  ghost predicate RightAt(z: uint64, pid: uint64, cs: seq<PCall>, xs: seq<Instr<Arg>>, evs: seq<Event>, i: nat,
                          vals: seq<uint64>)
    requires i < |evs|
  {
    && Taken(cs, xs, Turns(evs[..i]), evs[i])
    && Read(z, pid, cs, xs, Turns(evs[..i]), Dones(evs[..i]), evs[i], vals)
  }

  /** All events that have happened were taken and read the right values. */
  ghost predicate Logged(z: uint64, pid: uint64, cs: seq<PCall>, xs: seq<Instr<Arg>>, evs: seq<Event>,
                         log: seq<seq<uint64>>) {
    |log| <= |evs| && forall i :: 0 <= i < |log| ==> RightAt(z, pid, cs, xs, evs, i, log[i])
  }

  lemma {:induction false} LoggedNext(z: uint64, pid: uint64, cs: seq<PCall>, xs: seq<Instr<Arg>>, evs: seq<Event>,
                                      log: seq<seq<uint64>>, vals: seq<uint64>)
    requires Logged(z, pid, cs, xs, evs, log) && |log| < |evs| && RightAt(z, pid, cs, xs, evs, |log|, vals)
    ensures Logged(z, pid, cs, xs, evs, log + [vals])
  {
  }

  lemma {:induction false} PossiblePrefix(xs: seq<Instr<Arg>>, evs: seq<Event>, i: nat)
    requires Possible(xs, evs) && i <= |evs|
    ensures Possible(xs, evs[..i])
    decreases |evs|
  {
    if i == |evs| {
      assert evs[..i] == evs;
    } else {
      PossiblePrefix(xs, evs[..|evs| - 1], i);
      assert evs[..|evs| - 1][..i] == evs[..i];
    }
  }

  /** What event i finds, and what it adds. */
  lemma {:induction false} EventAt(xs: seq<Instr<Arg>>, evs: seq<Event>, i: nat)
    requires Possible(xs, evs) && i < |evs|
    ensures CanHappen(xs, Turns(evs[..i]), evs[i])
    ensures Turns(evs[..i + 1]) == Later(Turns(evs[..i]), evs[i])
            && Dones(evs[..i + 1]) == Added(Dones(evs[..i]), evs[i])
  {
    PossiblePrefix(xs, evs, i + 1);
    assert evs[..i + 1][..i] == evs[..i];
  }

  /** The end marker stands at the end only. */
  predicate EndsOnce(xs: seq<Instr<Arg>>) {
    |xs| > 0 && forall n :: 0 <= n < |xs| ==> (xs[n].Eof? <==> n == |xs| - 1)
  }

  lemma {:induction false} EndsAfter(a: seq<Instr<Arg>>, xs: seq<Instr<Arg>>)
    requires EndsOnce(xs) && forall i :: 0 <= i < |a| ==> !a[i].Eof?
    ensures EndsOnce(a + xs)
  {
    forall n | 0 <= n < |a + xs| ensures (a + xs)[n].Eof? <==> n == |a + xs| - 1 {
      if n >= |a| { assert (a + xs)[n] == xs[n - |a|]; }
    }
  }

  lemma {:induction false} LayoutEnds(calls: seq<ExecCall<Arg>>, acts: seq<Action>, i: nat)
    requires i <= |calls|
    ensures EndsOnce(Layout(calls, acts, i))
    decreases |calls| - i
  {
    var a := ConfigInstrs(ActionsAt(acts, i));
    if i == |calls| {
      EndsAfter(a, [Eof]);
    } else {
      LayoutEnds(calls, acts, i + 1);
      EndsAfter(CallInstrs(calls[i]), Layout(calls, acts, i + 1));
      EndsAfter(a, CallInstrs(calls[i]) + Layout(calls, acts, i + 1));
    }
  }

  /** n instructions are read and the completions ds are recorded. */
  ghost predicate Standing(r: Reader, z: uint64, cs: seq<PCall>, es: seq<ExecCall<Arg>>, acts: seq<Action>, n: nat,
                           ds: seq<Done>)
    reads r, r.results
  {
    forall u: bool {:trigger Open(u)} :: Open(u) ==>
      Runnable(z, cs, es) && InRange(ds, |cs|) && r.Tracks(es, acts, n) && r.results[..] == Table(es, ds)
  }

  /** One event of a run. */
  method Advance(r: Reader, e: Event, ghost z: uint64, ghost cs: seq<PCall>, ghost es: seq<ExecCall<Arg>>,
                 ghost acts: seq<Action>, ghost n: nat, ghost ds: seq<Done>)
    returns (o: Outcome, vals: seq<uint64>)
    requires Standing(r, z, cs, es, acts, n, ds) && CanHappen(Layout(es, acts, 0), n, e)
    modifies r`pos, r`threads, r.results
    ensures o == Failed <==> !Taken(cs, Layout(es, acts, 0), n, e)
    ensures o == Finished <==> e.Turn? && n + 1 == |Layout(es, acts, 0)|
    ensures o != Failed ==> Read(z, r.pid, cs, Layout(es, acts, 0), n, ds, e, vals)
    ensures o != Failed ==> Standing(r, z, cs, es, acts, Later(n, e), Added(ds, e))
  {
    assert Open(true);
    match e {
      case Turn =>
        LayoutEnds(es, acts, 0);
        o, vals := Next(r, z, cs, es, acts, ds, n);
      case Return(d) =>
        var ok := Finish(r, d, z, cs, es, acts, ds, n);
        return if ok then More else Failed, [];
    }
  }

  method Start(target: Target, data: seq<byte>, pid: uint64, ghost z: uint64, ghost cs: seq<PCall>,
               ghost es: seq<ExecCall<Arg>>,
               ghost acts: seq<Action>)
    returns (r: Reader)
    requires IsVarint(target.codec) && target.Valid() && Runnable(z, cs, es) && Holds(target, data, es, acts)
    ensures fresh(r) && fresh(r.results) && Standing(r, z, cs, es, acts, 0, []) && r.pid == pid
  {
    r := new Reader(target, data, pid);
    r.Header(es, acts);
  }

  /** Where a run stands after i events. */
  ghost predicate After(r: Reader, z: uint64, cs: seq<PCall>, es: seq<ExecCall<Arg>>, acts: seq<Action>,
                        evs: seq<Event>, i: nat)
    requires i <= |evs|
    reads r, r.results
  {
    Standing(r, z, cs, es, acts, Turns(evs[..i]), Dones(evs[..i]))
  }

  /** Whether the end marker is among the first i events. */
  function Status(xs: seq<Instr<Arg>>, evs: seq<Event>, i: nat): Outcome
    requires i <= |evs|
  {
    if Turns(evs[..i]) == |xs| then Finished else More
  }

  method Happen(r: Reader, evs: seq<Event>, i: nat, o: Outcome, ghost z: uint64, ghost cs: seq<PCall>,
                ghost es: seq<ExecCall<Arg>>, ghost acts: seq<Action>, ghost xs: seq<Instr<Arg>>)
    returns (o': Outcome, vals: seq<uint64>)
    requires xs == Layout(es, acts, 0) && i < |evs| && Possible(xs, evs)
    requires After(r, z, cs, es, acts, evs, i) && o == Status(xs, evs, i)
    modifies r`pos, r`threads, r.results
    ensures o' == Failed <==> !Taken(cs, xs, Turns(evs[..i]), evs[i])
    ensures o' != Failed ==> RightAt(z, r.pid, cs, xs, evs, i, vals)
    ensures o' != Failed ==> o' == Status(xs, evs, i + 1) && After(r, z, cs, es, acts, evs, i + 1)
  {
    EventAt(xs, evs, i);
    o', vals := Advance(r, evs[i], z, cs, es, acts, Turns(evs[..i]), Dones(evs[..i]));
    if o' == More { o' := o; }
  }

  /**
   Every run: for any order of reading and completing, the executor goes on until an event that it does not
   take, and every value it reads is that of exactly the resource named, as of the completions before.
   It is finished exactly if all instructions up to the end marker are read.
   */
  method Run(target: Target, data: seq<byte>, pid: uint64, evs: seq<Event>, ghost z: uint64, ghost cs: seq<PCall>,
             ghost es: seq<ExecCall<Arg>>, ghost acts: seq<Action>)
    returns (log: seq<seq<uint64>>, o: Outcome)
    requires IsVarint(target.codec) && target.Valid() && Runnable(z, cs, es) && Holds(target, data, es, acts)
    requires Possible(Layout(es, acts, 0), evs)
    ensures Logged(z, pid, cs, Layout(es, acts, 0), evs, log)
    ensures o == Failed <==> |log| < |evs|
    ensures o == Failed ==> !Taken(cs, Layout(es, acts, 0), Turns(evs[..|log|]), evs[|log|])
    ensures o == Finished <==> |log| == |evs| && Turns(evs) == |Layout(es, acts, 0)|
  {
    var r := Start(target, data, pid, z, cs, es, acts);
    assert evs[..0] == [];
    LayoutHead(es, acts, 0);
    log, o := Go(r, evs, z, cs, es, acts, Layout(es, acts, 0));
    assert Open(true);
  }

  /** A run after i events, to be looked into only where that is asked for. */
  ghost predicate Running(r: Reader, z: uint64, cs: seq<PCall>, es: seq<ExecCall<Arg>>, acts: seq<Action>,
                          xs: seq<Instr<Arg>>, evs: seq<Event>, i: nat, log: seq<seq<uint64>>, o: Outcome)
    reads r, r.results
  {
    forall u: bool {:trigger Open(u)} :: Open(u) ==>
      && xs == Layout(es, acts, 0) && Possible(xs, evs) && i == |log| <= |evs| && Logged(z, r.pid, cs, xs, evs, log)
      && After(r, z, cs, es, acts, evs, i) && o == Status(xs, evs, i)
  }

  method OneMore(r: Reader, evs: seq<Event>, i: nat, log: seq<seq<uint64>>, o: Outcome, ghost z: uint64,
                 ghost cs: seq<PCall>, ghost es: seq<ExecCall<Arg>>, ghost acts: seq<Action>, ghost xs: seq<Instr<Arg>>)
    returns (log': seq<seq<uint64>>, o': Outcome)
    requires i < |evs| && Running(r, z, cs, es, acts, xs, evs, i, log, o)
    modifies r`pos, r`threads, r.results
    ensures o' != Failed ==> Running(r, z, cs, es, acts, xs, evs, i + 1, log', o')
    ensures o' == Failed ==> Stopped(z, r.pid, cs, xs, evs, log')
  {
    assert Open(true);
    var vals;
    o', vals := Happen(r, evs, i, o, z, cs, es, acts, xs);
    log' := log;
    if o' != Failed {
      LoggedNext(z, r.pid, cs, xs, evs, log, vals);
      log' := log + [vals];
    }
  }

  /** The log ends in front of an event that the executor does not take. */
  ghost predicate Stopped(z: uint64, pid: uint64, cs: seq<PCall>, xs: seq<Instr<Arg>>, evs: seq<Event>,
                          log: seq<seq<uint64>>) {
    forall u: bool {:trigger Open(u)} :: Open(u) ==>
      Logged(z, pid, cs, xs, evs, log) && |log| < |evs| && !Taken(cs, xs, Turns(evs[..|log|]), evs[|log|])
  }

  /** The log covers all events, and they are finished exactly if all instructions are read. */
  ghost predicate RanThrough(z: uint64, pid: uint64, cs: seq<PCall>, xs: seq<Instr<Arg>>, evs: seq<Event>,
                             log: seq<seq<uint64>>,
                            o: Outcome) {
    forall u: bool {:trigger Open(u)} :: Open(u) ==>
      Logged(z, pid, cs, xs, evs, log) && |log| == |evs| && o == if Turns(evs) == |xs| then Finished else More
  }

  lemma {:induction false} AllDone(r: Reader, z: uint64, cs: seq<PCall>, es: seq<ExecCall<Arg>>, acts: seq<Action>,
                                   xs: seq<Instr<Arg>>, evs: seq<Event>, log: seq<seq<uint64>>, o: Outcome)
    requires Running(r, z, cs, es, acts, xs, evs, |evs|, log, o)
    ensures RanThrough(z, r.pid, cs, xs, evs, log, o)
  {
    assert Open(true);
    assert evs[..|evs|] == evs;
  }

  /** The events, one by one. */
  method Go(r: Reader, evs: seq<Event>, ghost z: uint64, ghost cs: seq<PCall>, ghost es: seq<ExecCall<Arg>>,
            ghost acts: seq<Action>, ghost xs: seq<Instr<Arg>>)
    returns (log: seq<seq<uint64>>, o: Outcome)
    requires Running(r, z, cs, es, acts, xs, evs, 0, [], More)
    modifies r`pos, r`threads, r.results
    ensures if o == Failed then Stopped(z, r.pid, cs, xs, evs, log) else RanThrough(z, r.pid, cs, xs, evs, log, o)
  {
    log, o := [], More;
    var i := 0;
    while i != |evs|
      invariant 0 <= i <= |evs| && o != Failed && Running(r, z, cs, es, acts, xs, evs, i, log, o)
      decreases |evs| - i
    {
      log, o := OneMore(r, evs, i, log, o, z, cs, es, acts, xs);
      if o == Failed { return; }
      i := i + 1;
    }
    AllDone(r, z, cs, es, acts, xs, evs, log, o);
  }
}
