/**
 Programs with resource objects in a heap (prog/clone.go, prog/collide.go) as the serializer sees
 them (prog/encodingexec.go): the result indices that a program needs are its resources in use.
 */
module CollideExec {
  import opened Basics
  import opened Counting
  import opened ExecResources
  import opened Varint
  import C = Clone
  import K = Collide

  // ----- the same program in both views -----

  /** Argument p is a with the resource objects of the heap looked up, whatever its other fields are. */
  predicate SameArg(h: C.Heap, a: C.Arg, p: PArg)
    decreases a
  {
    match a
    case Scalar(_) => p.PConst? || p.PData?
    case Pointer(_, q) => p.PPointer?
        && (if q.None? then p.pointee.None? else p.pointee.Some? && SameArg(h, q.value, p.pointee.value))
    case Group(_, inner) => p.PGroup? && SameArgs(h, inner, p.inner)
    case Union(_, o) => p.PUnion? && SameArg(h, o, p.option)
    case Result(id) => p.PResult? && id < |h| && p.id == id && p.uses == h[id].uses && p.res == h[id].res
  }

  predicate SameArgs(h: C.Heap, args: seq<C.Arg>, ps: seq<PArg>)
    decreases args
  {
    |args| == |ps| && (|args| > 0 ==> SameArg(h, args[0], ps[0]) && SameArgs(h, args[1..], ps[1..]))
  }

  predicate SameCall(h: C.Heap, c: C.Call, p: PCall) {
    && (if c.ret.None? then p.ret.None? else p.ret.Some? && SameArg(h, C.Result(c.ret.value), p.ret.value))
    && SameArgs(h, c.args, p.args)
  }

  predicate SameProg(h: C.Heap, calls: seq<C.Call>, ps: seq<PCall>) {
    |calls| == |ps| && forall i :: 0 <= i < |calls| ==> SameCall(h, calls[i], ps[i])
  }

  // ----- resources in use -----

  /** The leaves that are in use, in their order. */
  function InUse(h: C.Heap, leaves: seq<nat>): seq<nat> {
    if |leaves| == 0 then []
    else (if leaves[0] < |h| && h[leaves[0]].uses != {} then [leaves[0]] else []) + InUse(h, leaves[1..])
  }

  lemma {:induction false} InUseConcat(h: C.Heap, a: seq<nat>, b: seq<nat>)
    ensures InUse(h, a + b) == InUse(h, a) + InUse(h, b)
  {
    if |a| == 0 {
      assert a + b == b;
    } else {
      assert (a + b)[1..] == a[1..] + b;
      InUseConcat(h, a[1..], b);
    }
  }

  lemma {:induction false} UsedIdsConcat(a: seq<Visit>, b: seq<Visit>)
    ensures UsedIds(a + b) == UsedIds(a) + UsedIds(b)
  {
    if |a| == 0 {
      assert a + b == b;
    } else {
      assert (a + b)[1..] == a[1..] + b;
      UsedIdsConcat(a[1..], b);
    }
  }

  lemma {:induction false} UsedIdsFirst(v: Visit, rest: seq<Visit>)
    ensures UsedIds([v] + rest) == (if Used(v.arg) then [v.arg.id] else []) + UsedIds(rest)
  {
    assert ([v] + rest)[1..] == rest;
  }

  /** The traversal meets the resource objects in the order in which they are copied. */
  lemma {:induction false} ArgInUse(h: C.Heap, a: C.Arg, p: PArg, base: Option<uint64>, off: nat)
    requires SameArg(h, a, p)
    ensures UsedIds(VisitArg(p, base, off)) == InUse(h, C.Leaves(a))
    decreases a
  {
    match a
    case Scalar(_) => UsedIdsFirst(Visit(p, base, off), []);
    case Pointer(_, q) =>
      if q.Some? {
        ArgInUse(h, q.value, p.pointee.value, Some(p.addr), 0);
        UsedIdsFirst(Visit(p, base, off), VisitArg(p.pointee.value, Some(p.addr), 0));
      } else {
        UsedIdsFirst(Visit(p, base, off), []);
      }
    case Group(_, inner) =>
      FieldsInUse(h, inner, p.inner, base, off, off, p.overlay);
      UsedIdsFirst(Visit(p, base, off), VisitFields(p.inner, base, off, off, p.overlay));
    case Union(_, o) =>
      ArgInUse(h, o, p.option, base, off);
      UsedIdsFirst(Visit(p, base, off), VisitArg(p.option, base, off));
    case Result(id) =>
      UsedIdsFirst(Visit(p, base, off), []);
      assert [id][1..] == [];
  }

  lemma {:induction false} FieldsInUse(h: C.Heap, args: seq<C.Arg>, ps: seq<PArg>, base: Option<uint64>, start: nat,
                                       off: nat, k: int)
    requires SameArgs(h, args, ps)
    ensures UsedIds(VisitFields(ps, base, start, off, k)) == InUse(h, C.LeavesAll(args))
    decreases args
  {
    if |args| == 0 {
      NoFields(h, args, ps, base, start, off, k);
    } else {
      var o := if k == 0 then start else off;
      ArgInUse(h, args[0], ps[0], base, o);
      FieldsInUse(h, args[1..], ps[1..], base, start, o + ps[0].size, k - 1);
      FirstField(ps, base, start, off, k, o);
      FirstArg(h, args);
    }
  }

  lemma {:induction false} FirstArg(h: C.Heap, args: seq<C.Arg>)
    requires |args| > 0
    ensures InUse(h, C.LeavesAll(args)) == InUse(h, C.Leaves(args[0])) + InUse(h, C.LeavesAll(args[1..]))
  {
    InUseConcat(h, C.Leaves(args[0]), C.LeavesAll(args[1..]));
  }

  lemma {:induction false} NoFields(h: C.Heap, args: seq<C.Arg>, ps: seq<PArg>, base: Option<uint64>, start: nat,
                                    off: nat, k: int)
    requires |args| == |ps| == 0
    ensures UsedIds(VisitFields(ps, base, start, off, k)) == InUse(h, C.LeavesAll(args)) == []
  {
  }

  lemma {:induction false} FirstField(ps: seq<PArg>, base: Option<uint64>, start: nat, off: nat, k: int, o: nat)
    requires |ps| > 0 && o == if k == 0 then start else off
    ensures UsedIds(VisitFields(ps, base, start, off, k)) ==
            UsedIds(VisitArg(ps[0], base, o)) + UsedIds(VisitFields(ps[1..], base, start, o + ps[0].size, k - 1))
  {
    UsedIdsConcat(VisitArg(ps[0], base, o), VisitFields(ps[1..], base, start, o + ps[0].size, k - 1));
  }

  lemma {:induction false} ArgsInUse(h: C.Heap, args: seq<C.Arg>, ps: seq<PArg>)
    requires SameArgs(h, args, ps)
    ensures UsedIds(VisitArgs(ps)) == InUse(h, C.LeavesAll(args))
  {
    if |args| > 0 {
      ArgInUse(h, args[0], ps[0], None, 0);
      ArgsInUse(h, args[1..], ps[1..]);
      UsedIdsConcat(VisitArg(ps[0], None, 0), VisitArgs(ps[1..]));
      FirstArg(h, args);
    }
  }

  lemma {:induction false} CallInUse(h: C.Heap, c: C.Call, p: PCall)
    requires SameCall(h, c, p)
    ensures Produced(p) == InUse(h, C.CallLeaves(c))
  {
    ArgsInUse(h, c.args, p.args);
    if c.ret.Some? {
      ArgInUse(h, C.Result(c.ret.value), p.ret.value, None, 0);
      UsedIdsConcat(VisitArg(p.ret.value, None, 0), VisitArgs(p.args));
      InUseConcat(h, [c.ret.value], C.LeavesAll(c.args));
    } else {
      assert [] + VisitArgs(p.args) == VisitArgs(p.args) && [] + C.LeavesAll(c.args) == C.LeavesAll(c.args);
    }
  }

  lemma {:induction false} LeavesLast(calls: seq<C.Call>)
    requires |calls| > 0
    ensures C.ProgLeaves(calls) == C.ProgLeaves(calls[..|calls| - 1]) + C.CallLeaves(calls[|calls| - 1])
  {
    assert calls == calls[..|calls| - 1] + [calls[|calls| - 1]];
    K.LeavesSnoc(calls[..|calls| - 1], calls[|calls| - 1]);
  }

  /** The serializer numbers exactly the resources in use, in their order. */
  lemma {:induction false} ProducedAreInUse(h: C.Heap, calls: seq<C.Call>, ps: seq<PCall>)
    requires SameProg(h, calls, ps)
    ensures AllProduced(ps) == InUse(h, C.ProgLeaves(calls))
  {
    if |calls| > 0 {
      var n := |calls| - 1;
      ProducedAreInUse(h, calls[..n], ps[..n]);
      CallInUse(h, calls[n], ps[n]);
      LeavesLast(calls);
      InUseConcat(h, C.ProgLeaves(calls[..n]), C.CallLeaves(calls[n]));
    }
  }

  lemma {:induction false} InUseCount(h: C.Heap, leaves: seq<nat>)
    requires C.Below(leaves, |h|)
    ensures |InUse(h, leaves)| == K.Indices(h, leaves)
  {
    if |leaves| > 0 { InUseCount(h, leaves[1..]); }
  }

  /** The number of result indices is the number of resources in use. */
  lemma {:induction false} IndicesAreProduced(h: C.Heap, calls: seq<C.Call>, ps: seq<PCall>)
    requires K.Sound(h, calls) && SameProg(h, calls, ps)
    ensures |AllProduced(ps)| == K.Indices(h, C.ProgLeaves(calls))
  {
    ProducedAreInUse(h, calls, ps);
    InUseCount(h, C.ProgLeaves(calls));
  }

  // ----- well-formed for the serializer -----

  lemma {:induction false} InUseMember(h: C.Heap, leaves: seq<nat>, x: nat)
    ensures x in InUse(h, leaves) <==> x in leaves && x < |h| && h[x].uses != {}
  {
    if |leaves| > 0 { InUseMember(h, leaves[1..], x); }
  }

  lemma {:induction false} InUseDistinct(h: C.Heap, leaves: seq<nat>)
    requires Distinct(leaves)
    ensures Distinct(InUse(h, leaves))
  {
    if |leaves| > 0 {
      DistinctTail(leaves);
      InUseDistinct(h, leaves[1..]);
      InUseMember(h, leaves[1..], leaves[0]);
    }
  }

  /** Result arguments of a traversal are resource objects of the tree. */
  lemma {:induction false} VisitedLeaf(h: C.Heap, a: C.Arg, p: PArg, base: Option<uint64>, off: nat, v: Visit)
    requires SameArg(h, a, p) && v in VisitArg(p, base, off) && v.arg.PResult?
    ensures v.arg.id in C.Leaves(a) && v.arg.id < |h| && v.arg.res == h[v.arg.id].res
    decreases a
  {
    if v != Visit(p, base, off) {
      match a
      case Pointer(_, q) => VisitedLeaf(h, q.value, p.pointee.value, Some(p.addr), 0, v);
      case Group(_, inner) => VisitedField(h, inner, p.inner, base, off, off, p.overlay, v);
      case Union(_, o) => VisitedLeaf(h, o, p.option, base, off, v);
    }
  }

  lemma {:induction false} VisitedField(h: C.Heap, args: seq<C.Arg>, ps: seq<PArg>, base: Option<uint64>, start: nat,
                                        off: nat, k: int, v: Visit)
    requires SameArgs(h, args, ps) && v in VisitFields(ps, base, start, off, k) && v.arg.PResult?
    ensures v.arg.id in C.LeavesAll(args) && v.arg.id < |h| && v.arg.res == h[v.arg.id].res
    decreases args
  {
    var o := if k == 0 then start else off;
    if v in VisitArg(ps[0], base, o) {
      VisitedLeaf(h, args[0], ps[0], base, o, v);
    } else {
      VisitedField(h, args[1..], ps[1..], base, start, o + ps[0].size, k - 1, v);
    }
  }

  lemma {:induction false} VisitedArg(h: C.Heap, args: seq<C.Arg>, ps: seq<PArg>, v: Visit)
    requires SameArgs(h, args, ps) && v in VisitArgs(ps) && v.arg.PResult?
    ensures v.arg.id in C.LeavesAll(args) && v.arg.id < |h| && v.arg.res == h[v.arg.id].res
  {
    if v in VisitArg(ps[0], None, 0) {
      VisitedLeaf(h, args[0], ps[0], None, 0, v);
    } else {
      VisitedArg(h, args[1..], ps[1..], v);
    }
  }

  lemma {:induction false} VisitedInCall(h: C.Heap, c: C.Call, p: PCall, v: Visit)
    requires SameCall(h, c, p) && v in Visits(p) && v.arg.PResult?
    ensures v.arg.id in C.CallLeaves(c) && v.arg.id < |h| && v.arg.res == h[v.arg.id].res
  {
    if c.ret.Some? && v in VisitArg(p.ret.value, None, 0) {
      VisitedLeaf(h, C.Result(c.ret.value), p.ret.value, None, 0, v);
    } else {
      VisitedArg(h, c.args, p.args, v);
    }
  }

  /** A reference of call k is to a resource in use of an earlier call. */
  lemma {:induction false} ReferenceInUse(h: C.Heap, calls: seq<C.Call>, k: nat, a: nat)
    requires K.Ok(h, calls) && K.AcrossCalls(h, calls) && k < |calls| && a in C.CallLeaves(calls[k]) && a < |h|
             && h[a].res.Some?
    ensures h[a].res.value in InUse(h, C.ProgLeaves(calls[..k]))
  {
    var all, r := C.ProgLeaves(calls), h[a].res.value;
    var before, own, after := C.ProgLeaves(calls[..k]), C.CallLeaves(calls[k]), C.ProgLeaves(calls[k + 1..]);
    SplitLeaves(calls, k);
    K.CallLeavesIn(calls, k, a);
    assert a in Members(all);
    assert K.Linked(h, Members(all), a);
    assert r in Members(all) && K.Linked(h, Members(all), r);
    assert a in K.Users(h, Members(all), r);
    EarlierLeaf(h, all, before, own, after, a);
    assert K.SelfFree(h, calls[k]);
    InUseMember(h, before, r);
  }

  lemma {:induction false} SplitLeaves(calls: seq<C.Call>, k: nat)
    requires k < |calls|
    ensures C.ProgLeaves(calls) == C.ProgLeaves(calls[..k]) + C.CallLeaves(calls[k]) + C.ProgLeaves(calls[k + 1..])
  {
    assert calls == calls[..k + 1] + calls[k + 1..];
    K.LeavesConcat(calls[..k + 1], calls[k + 1..]);
    LeavesLast(calls[..k + 1]);
    assert calls[..k + 1][..k] == calls[..k];
  }

  lemma {:induction false} EarlierLeaf(h: C.Heap, all: seq<nat>, before: seq<nat>, own: seq<nat>, after: seq<nat>,
                                       a: nat)
    requires all == before + own + after && C.Below(all, |h|) && C.Backward(h, all) && a in own && a < |h|
             && h[a].res.Some?
    ensures h[a].res.value in before || h[a].res.value in own
  {
    var j :| 0 <= j < |own| && own[j] == a;
    var i := |before| + j;
    assert all[i] == a;
    assert C.RefersBack(h, all, i);
    assert all[..i] == before + own[..j];
  }

  /** A well-formed program whose references go across calls is well-formed for the serializer. */
  lemma {:induction false} WellFormedToo(h: C.Heap, calls: seq<C.Call>, ps: seq<PCall>)
    requires K.Ok(h, calls) && K.AcrossCalls(h, calls) && SameProg(h, calls, ps)
    requires forall k :: 0 <= k < |ps| ==> WellShaped(ps[k])
    ensures WellFormed(ps)
  {
    ProducedAreInUse(h, calls, ps);
    InUseDistinct(h, C.ProgLeaves(calls));
    forall k | 0 <= k < |ps| ensures RefsIn(Visits(ps[k]), AllProduced(ps[..k])) {
      ProducedAreInUse(h, calls[..k], ps[..k]);
      forall v | v in Visits(ps[k]) && v.arg.PResult? && v.arg.res.Some?
          ensures v.arg.res.value in AllProduced(ps[..k]) {
        VisitedInCall(h, calls[k], ps[k], v);
        ReferenceInUse(h, calls, k, v.arg.id);
      }
    }
  }

  /** Such a program serializes without a panic and takes as many result indices as it has resources in use. */
  lemma {:induction false} SerializedIndices(z: uint64, h: C.Heap, calls: seq<C.Call>, ps: seq<PCall>)
    requires K.Ok(h, calls) && K.AcrossCalls(h, calls) && SameProg(h, calls, ps)
    requires forall k :: 0 <= k < |ps| ==> WellShaped(ps[k])
    ensures SerializeCalls(z, ps).Some? && SerializeCalls(z, ps).value.seq_ == K.Indices(h, C.ProgLeaves(calls))
  {
    WellFormedToo(h, calls, ps);
    IndicesAreDense(z, ps);
    IndicesAreProduced(h, calls, ps);
  }

}
