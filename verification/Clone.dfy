/**
 Copies of programs (prog/clone.go). Arguments are trees; resource arguments are objects that refer
 to each other, kept in a heap of numbered objects with the fields Res, uses and Val.
 */
module Clone {
  import opened Basics
  import opened Counting

  /** An argument: Result(id) stands for the resource object id. */
  datatype Arg = Scalar(payload: nat)
               | Pointer(payload: nat, pointee: Option<Arg>)
               | Group(payload: nat, inner: seq<Arg>)
               | Union(payload: nat, option: Arg)
               | Result(id: nat)

  datatype Call = Call(meta: nat, ret: Option<nat>, args: seq<Arg>, async: bool)

  // ----- resource objects in the order in which they are copied -----

  function Leaves(a: Arg): seq<nat>
    decreases a
  {
    match a
    case Scalar(_) => []
    case Pointer(_, p) => if p.Some? then Leaves(p.value) else []
    case Group(_, inner) => LeavesAll(inner)
    case Union(_, o) => Leaves(o)
    case Result(id) => [id]
  }

  function LeavesAll(args: seq<Arg>): seq<nat>
    decreases args
  {
    if |args| == 0 then [] else Leaves(args[0]) + LeavesAll(args[1..])
  }

  function CallLeaves(c: Call): seq<nat> {
    (if c.ret.Some? then [c.ret.value] else []) + LeavesAll(c.args)
  }

  function ProgLeaves(calls: seq<Call>): seq<nat> {
    if |calls| == 0 then [] else CallLeaves(calls[0]) + ProgLeaves(calls[1..])
  }

  // ----- the same with consecutive new numbers -----

  function Relabel(a: Arg, n: nat): Arg
    decreases a
  {
    match a
    case Scalar(_) => a
    case Pointer(x, p) => if p.Some? then Pointer(x, Some(Relabel(p.value, n))) else a
    case Group(x, inner) => Group(x, RelabelAll(inner, n))
    case Union(x, o) => Union(x, Relabel(o, n))
    case Result(_) => Result(n)
  }

  function RelabelAll(args: seq<Arg>, n: nat): seq<Arg>
    decreases args
  {
    if |args| == 0 then [] else [Relabel(args[0], n)] + RelabelAll(args[1..], n + |Leaves(args[0])|)
  }

  function RelabelCall(c: Call, n: nat): Call {
    if c.ret.Some? then Call(c.meta, Some(n), RelabelAll(c.args, n + 1), c.async)
    else Call(c.meta, None, RelabelAll(c.args, n), c.async)
  }

  function RelabelProg(calls: seq<Call>, n: nat): seq<Call> {
    if |calls| == 0 then [] else [RelabelCall(calls[0], n)] + RelabelProg(calls[1..], n + |CallLeaves(calls[0])|)
  }

  function From(n: nat, k: nat): seq<nat> { seq(k, i requires 0 <= i < k => n + i) }

  lemma {:induction false} FromSplit(n: nat, j: nat, k: nat)
    ensures From(n, j) + From(n + j, k) == From(n, j + k)
  {
  }

  lemma {:induction false} RelabelLeaves(a: Arg, n: nat)
    ensures Leaves(Relabel(a, n)) == From(n, |Leaves(a)|)
    decreases a
  {
    match a
    case Pointer(_, p) => if p.Some? { RelabelLeaves(p.value, n); }
    case Group(_, inner) => RelabelAllLeaves(inner, n);
    case Union(_, o) => RelabelLeaves(o, n);
    case _ =>
  }

  lemma {:induction false} RelabelAllLeaves(args: seq<Arg>, n: nat)
    ensures LeavesAll(RelabelAll(args, n)) == From(n, |LeavesAll(args)|)
    decreases args
  {
    if |args| > 0 {
      var k := |Leaves(args[0])|;
      RelabelLeaves(args[0], n);
      RelabelAllLeaves(args[1..], n + k);
      assert RelabelAll(args, n)[1..] == RelabelAll(args[1..], n + k);
      FromSplit(n, k, |LeavesAll(args[1..])|);
    }
  }

  lemma {:induction false} RelabelCallLeaves(c: Call, n: nat)
    ensures CallLeaves(RelabelCall(c, n)) == From(n, |CallLeaves(c)|)
  {
    RelabelAllLeaves(c.args, n);
    RelabelAllLeaves(c.args, n + 1);
    FromSplit(n, 1, |LeavesAll(c.args)|);
  }

  lemma {:induction false} RelabelProgLeaves(calls: seq<Call>, n: nat)
    ensures ProgLeaves(RelabelProg(calls, n)) == From(n, |ProgLeaves(calls)|)
  {
    if |calls| > 0 {
      var k := |CallLeaves(calls[0])|;
      RelabelCallLeaves(calls[0], n);
      RelabelProgLeaves(calls[1..], n + k);
      assert RelabelProg(calls, n)[1..] == RelabelProg(calls[1..], n + k);
      FromSplit(n, k, |ProgLeaves(calls[1..])|);
    }
  }

  // ----- the heap of resource objects -----

  datatype Object = Object(res: Option<nat>, uses: set<nat>, val: nat)

  /** Objects 0, 1, 2, ... in the order of their allocation. */
  type Heap = seq<Object>

  type Names = map<nat, nat>

  /** clone of one resource object: None where the source dereferences nil. */
  datatype Copied = Copied(heap: Heap, names: Option<Names>)

  function CopyLeaf(h: Heap, a: nat, names: Option<Names>): Option<Copied>
    requires a < |h|
  {
    var new_ := |h|;
    var names' := if names.Some? then Some(names.value[a := new_]) else None;
    match h[a].res
    case None => Some(Copied(h + [Object(None, {}, h[a].val)], names'))
    case Some(r) =>
      if names.Some? && r !in names.value then None
      else
        var r' := if names.Some? then names.value[r] else r;
        if r' >= |h| then None
        else Some(Copied(h[r' := h[r'].(uses := h[r'].uses + {new_})] + [Object(Some(r'), {}, h[a].val)], names'))
  }

  function CopyAll(h: Heap, leaves: seq<nat>, names: Option<Names>): Option<Copied>
    requires forall i :: 0 <= i < |leaves| ==> leaves[i] < |h|
    decreases |leaves|
  {
    if |leaves| == 0 then Some(Copied(h, names))
    else
      match CopyLeaf(h, leaves[0], names)
      case None => None
      case Some(Copied(h', names')) => CopyAll(h', leaves[1..], names')
  }

  lemma {:induction false} CopyConcat(h: Heap, x: seq<nat>, y: seq<nat>, names: Option<Names>)
    requires forall i :: 0 <= i < |x| ==> x[i] < |h|
    requires forall i :: 0 <= i < |y| ==> y[i] < |h|
    ensures CopyAll(h, x, names).Some? ==> |CopyAll(h, x, names).value.heap| == |h| + |x|
    ensures CopyAll(h, x + y, names) ==
            match CopyAll(h, x, names)
            case None => None
            case Some(Copied(h', names')) => CopyAll(h', y, names')
    decreases |x|
  {
    if |x| == 0 {
      assert x + y == y;
    } else {
      assert (x + y)[1..] == x[1..] + y;
      match CopyLeaf(h, x[0], names)
      case None =>
      case Some(Copied(h', names')) => CopyConcat(h', x[1..], y, names');
    }
  }

  // ----- the code -----

  predicate Below(leaves: seq<nat>, n: nat) { forall i :: 0 <= i < |leaves| ==> leaves[i] < n }

  class Cloner {
    var heap: Heap
    var names: Option<Names>

    constructor (heap: Heap, names: Option<Names>)
      ensures this.heap == heap && this.names == names
    {
      this.heap, this.names := heap, names;
    }

    /** clone, case ResultArg */
    method CloneLeaf(a: nat) returns (r: Option<nat>)
      requires a < |heap|
      modifies this
      ensures match CopyLeaf(old(heap), a, old(names))
              case None => r.None?
              case Some(Copied(h, m)) => heap == h && names == m && r == Some(old(|heap|))
    {
      var new_ := |heap|;
      var res := heap[a].res;
      if res.Some? {
        if names.Some? {
          if res.value !in names.value { return None; }
          res := Some(names.value[res.value]);
        }
        var t := res.value;
        if t >= |heap| { return None; }
        heap := heap[t := heap[t].(uses := heap[t].uses + {new_})];
      }
      heap := heap + [Object(res, {}, heap[a].val)];
      if names.Some? { names := Some(names.value[a := new_]); }
      return Some(new_);
    }

    /** clone */
    method CloneArg(a: Arg) returns (r: Option<Arg>)
      requires Below(Leaves(a), |heap|)
      modifies this
      ensures match CopyAll(old(heap), Leaves(a), old(names))
              case None => r.None?
              case Some(Copied(h, m)) => heap == h && names == m && r == Some(Relabel(a, old(|heap|)))
      decreases a
    {
      match a {
        case Scalar(_) => r := Some(a);
        case Pointer(x, p) =>
          r := Some(a);
          if p.Some? {
            var q := CloneArg(p.value);
            if q.None? { return None; }
            r := Some(Pointer(x, q));
          }
        case Group(x, inner) =>
          var q := CloneArgs(inner);
          if q.None? { return None; }
          r := Some(Group(x, q.value));
        case Union(x, o) =>
          var q := CloneArg(o);
          if q.None? { return None; }
          r := Some(Union(x, q.value));
        case Result(id) =>
          assert Leaves(a)[0] == id;
          CopyOne(heap, id, names);
          var q := CloneLeaf(id);
          if q.None? { return None; }
          r := Some(Result(q.value));
      }
    }

    method CloneArgs(args: seq<Arg>) returns (r: Option<seq<Arg>>)
      requires Below(LeavesAll(args), |heap|)
      modifies this
      ensures match CopyAll(old(heap), LeavesAll(args), old(names))
              case None => r.None?
              case Some(Copied(h, m)) => heap == h && names == m && r == Some(RelabelAll(args, old(|heap|)))
      decreases args
    {
      if |args| == 0 { return Some([]); }
      BelowParts(Leaves(args[0]), LeavesAll(args[1..]), |heap|);
      CopyConcat(heap, Leaves(args[0]), LeavesAll(args[1..]), names);
      var a := CloneArg(args[0]);
      if a.None? { return None; }
      var rest := CloneArgs(args[1..]);
      if rest.None? { return None; }
      return Some([a.value] + rest.value);
    }

    /** cloneCall */
    method CloneCall(c: Call) returns (r: Option<Call>)
      requires Below(CallLeaves(c), |heap|)
      modifies this
      ensures match CopyAll(old(heap), CallLeaves(c), old(names))
              case None => r.None?
              case Some(Copied(h, m)) => heap == h && names == m && r == Some(RelabelCall(c, old(|heap|)))
    {
      var ret: Option<nat> := None;
      ghost var front := if c.ret.Some? then [c.ret.value] else [];
      BelowParts(front, LeavesAll(c.args), |heap|);
      CopyConcat(heap, front, LeavesAll(c.args), names);
      if c.ret.Some? {
        CopyOne(heap, c.ret.value, names);
        assert front[0] == c.ret.value;
        ret := CloneLeaf(c.ret.value);
        if ret.None? { return None; }
      }
      var args := CloneArgs(c.args);
      if args.None? { return None; }
      return Some(Call(c.meta, ret, args.value, c.async));
    }

    /** cloneCalls */
    method CloneCalls(calls: seq<Call>) returns (r: Option<seq<Call>>)
      requires Below(ProgLeaves(calls), |heap|)
      modifies this
      ensures match CopyAll(old(heap), ProgLeaves(calls), old(names))
              case None => r.None?
              case Some(Copied(h, m)) => heap == h && names == m && r == Some(RelabelProg(calls, old(|heap|)))
    {
      ghost var all := CopyAll(heap, ProgLeaves(calls), names);
      ghost var n := |heap|;
      var done: seq<Call> := [];
      var i := 0;
      assert calls[0..] == calls;
      while i < |calls|
        invariant 0 <= i <= |calls| && n <= |heap| && Below(ProgLeaves(calls[i..]), |heap|)
        invariant CopyAll(heap, ProgLeaves(calls[i..]), names) == all
        invariant RelabelProg(calls, n) == done + RelabelProg(calls[i..], |heap|)
      {
        var c := calls[i];
        assert calls[i..][0] == c && calls[i..][1..] == calls[i + 1..];
        BelowParts(CallLeaves(c), ProgLeaves(calls[i + 1..]), |heap|);
        CopyConcat(heap, CallLeaves(c), ProgLeaves(calls[i + 1..]), names);
        ghost var k := |heap|;
        var d := CloneCall(c);
        if d.None? { return None; }
        assert done + ([d.value] + RelabelProg(calls[i + 1..], |heap|)) ==
               done + [d.value] + RelabelProg(calls[i + 1..], |heap|);
        done := done + [d.value];
        i := i + 1;
      }
      assert done + [] == done;
      return Some(done);
    }
  }

  lemma {:induction false} BelowParts(x: seq<nat>, y: seq<nat>, n: nat)
    requires Below(x + y, n)
    ensures Below(x, n) && Below(y, n)
  {
    forall i | 0 <= i < |x| ensures x[i] < n { assert (x + y)[i] == x[i]; }
    forall i | 0 <= i < |y| ensures y[i] < n { assert (x + y)[|x| + i] == y[i]; }
  }

  lemma {:induction false} CopyOne(h: Heap, a: nat, names: Option<Names>)
    requires a < |h|
    ensures CopyAll(h, [a], names) == CopyLeaf(h, a, names)
  {
    assert [a][1..] == [];
  }

  // ----- a copy with its own names: the resource graph is the same -----

  /** References go to objects that are copied earlier. */
  predicate Backward(h: Heap, leaves: seq<nat>)
    requires Below(leaves, |h|)
  {
    forall i: nat {:trigger RefersBack(h, leaves, i)} :: i < |leaves| ==> RefersBack(h, leaves, i)
  }

  predicate RefersBack(h: Heap, leaves: seq<nat>, i: nat)
    requires Below(leaves, |h|) && i < |leaves|
  {
    h[leaves[i]].res.Some? ==> h[leaves[i]].res.value in leaves[..i]
  }

  /** A position of x. */
  ghost function IndexOf(s: seq<nat>, x: nat): (i: nat)
    requires x in s
    ensures i < |s| && s[i] == x
  {
    var i :| 0 <= i < |s| && s[i] == x;
    i
  }

  /** Positions are unique: the sequence has no repetitions. */
  ghost predicate Placed(s: seq<nat>) {
    forall i :: 0 <= i < |s| ==> IndexOf(s, s[i]) == i
  }

  lemma {:induction false} DistinctPlaced(s: seq<nat>)
    requires Distinct(s)
    ensures Placed(s)
  {
  }

  /** The new name of a reference: positions in leaves count from n. */
  ghost function Renamed(r: Option<nat>, leaves: seq<nat>, n: nat): Option<nat> {
    if r.Some? && r.value in leaves then Some(n + IndexOf(leaves, r.value)) else None
  }

  /** New objects among the first k that refer to the copy of leaf i. */
  function CopiedUses(h: Heap, leaves: seq<nat>, k: nat, i: nat): set<nat>
    requires Below(leaves, |h|) && k <= |leaves| && i < |leaves|
  {
    set j | 0 <= j < k && h[leaves[j]].res == Some(leaves[i]) :: |h| + j
  }

  /** The first k leaves have been copied. */
  ghost predicate CopiedTo(h: Heap, h': Heap, leaves: seq<nat>, k: nat)
    requires Below(leaves, |h|) && k <= |leaves|
  {
    && |h'| == |h| + k && h'[..|h|] == h
    && forall i: nat :: i < k ==> IsCopy(h, h', leaves, k, i)
  }

  /** Object |h| + i is the copy of leaf i, with its uses among the first k copies. */
  ghost predicate IsCopy(h: Heap, h': Heap, leaves: seq<nat>, k: nat, i: nat)
    requires Below(leaves, |h|) && k <= |leaves| && i < |leaves| && |h| + i < |h'|
  {
    h'[|h| + i] == Object(Renamed(h[leaves[i]].res, leaves, |h|), CopiedUses(h, leaves, k, i), h[leaves[i]].val)
  }

  ghost predicate Naming(leaves: seq<nat>, k: nat, n: nat, m: Names)
    requires k <= |leaves|
  {
    && (forall a :: a in m <==> a in leaves[..k])
    && (forall i :: 0 <= i < k ==> leaves[i] in m && m[leaves[i]] == n + i)
  }

  lemma {:induction false} UsesNext(h: Heap, leaves: seq<nat>, k: nat, i: nat)
    requires Below(leaves, |h|) && k < |leaves| && i < |leaves|
    ensures CopiedUses(h, leaves, k + 1, i) ==
            CopiedUses(h, leaves, k, i) + (if h[leaves[k]].res == Some(leaves[i]) then {|h| + k} else {})
  {
  }

  lemma {:induction false} NoOwnUses(h: Heap, leaves: seq<nat>, k: nat)
    requires Placed(leaves) && Below(leaves, |h|) && Backward(h, leaves) && k < |leaves|
    ensures CopiedUses(h, leaves, k + 1, k) == {}
  {
    forall j | 0 <= j < k + 1 ensures h[leaves[j]].res != Some(leaves[k]) {
      assert RefersBack(h, leaves, j);
      assert leaves[k] !in leaves[..j];
    }
  }

  lemma {:induction false} NamingNext(leaves: seq<nat>, k: nat, n: nat, m: Names)
    requires k < |leaves| && Placed(leaves) && Naming(leaves, k, n, m)
    ensures Naming(leaves, k + 1, n, m[leaves[k] := n + k])
  {
    TakeNext(leaves, k);
  }

  lemma {:induction false} TakeNext(s: seq<nat>, k: nat)
    requires k < |s|
    ensures s[..k + 1] == s[..k] + [s[k]]
  {
  }

  /** A reference and the position it is copied to. */
  lemma {:induction false} ReferencePlace(h: Heap, leaves: seq<nat>, k: nat) returns (i: nat)
    requires Placed(leaves) && Below(leaves, |h|) && Backward(h, leaves) && k < |leaves| && h[leaves[k]].res.Some?
    ensures i < k && h[leaves[k]].res == Some(leaves[i]) && Renamed(h[leaves[k]].res, leaves, |h|) == Some(|h| + i)
  {
    var r := h[leaves[k]].res.value;
    assert RefersBack(h, leaves, k);
    i :| 0 <= i < k && leaves[i] == r;
  }

  /** g' is g with one more object, a copy of leaf k whose reference is now t. */
  ghost predicate Adds(h: Heap, g: Heap, g': Heap, leaves: seq<nat>, k: nat, t: Option<nat>)
    requires Below(leaves, |h|) && k < |leaves|
  {
    && |g| == |h| + k && |g'| == |g| + 1 && g'[|g|] == Object(t, {}, h[leaves[k]].val)
    && (forall x :: 0 <= x < |g| ==> g'[x] == if t == Some(x) then g[x].(uses := g[x].uses + {|g|}) else g[x])
    && (if t.Some? then |h| <= t.value < |g| && h[leaves[k]].res == Some(leaves[t.value - |h|])
       else h[leaves[k]].res.None?)
  }

  lemma {:induction false} CopiedAt(h: Heap, g: Heap, g': Heap, leaves: seq<nat>, k: nat, t: Option<nat>, i: nat)
    requires Placed(leaves) && Below(leaves, |h|) && i < k < |leaves|
    requires CopiedTo(h, g, leaves, k) && Adds(h, g, g', leaves, k, t)
    ensures IsCopy(h, g', leaves, k + 1, i)
  {
    UsesNext(h, leaves, k, i);
    assert IsCopy(h, g, leaves, k, i);
    assert t == Some(|h| + i) <==> h[leaves[k]].res == Some(leaves[i]);
  }

  lemma {:induction false} AddsAbove(h: Heap, g: Heap, g': Heap, leaves: seq<nat>, k: nat, t: Option<nat>)
    requires Below(leaves, |h|) && k < |leaves| && Adds(h, g, g', leaves, k, t) && g[..|h|] == h
    ensures g'[..|h|] == h
  {
    forall x | 0 <= x < |h| ensures g'[x] == h[x] { assert g[x] == g[..|h|][x]; }
  }

  lemma {:induction false} CopiedNext(h: Heap, g: Heap, g': Heap, leaves: seq<nat>, k: nat, t: Option<nat>)
    requires Placed(leaves) && Below(leaves, |h|) && Backward(h, leaves) && k < |leaves|
    requires CopiedTo(h, g, leaves, k) && Adds(h, g, g', leaves, k, t) && t == Renamed(h[leaves[k]].res, leaves, |h|)
    ensures CopiedTo(h, g', leaves, k + 1)
  {
    AddsAbove(h, g, g', leaves, k, t);
    NoOwnUses(h, leaves, k);
    var next := k + 1;
    forall i: nat | i < next ensures IsCopy(h, g', leaves, next, i) {
      if i < k { CopiedAt(h, g, g', leaves, k, t, i); }
    }
  }

  lemma {:induction false} LeafAdds(h: Heap, g: Heap, leaves: seq<nat>, k: nat, m: Names, t: Option<nat>)
    requires Below(leaves, |h|) && k < |leaves| && CopiedTo(h, g, leaves, k)
    requires if t.Some? then |h| <= t.value < |h| + k && h[leaves[k]].res == Some(leaves[t.value - |h|])
             else h[leaves[k]].res.None?
    requires t.Some? ==> h[leaves[k]].res.value in m && m[h[leaves[k]].res.value] == t.value
    ensures var c := CopyLeaf(g, leaves[k], Some(m));
            c.Some? && c.value.names == Some(m[leaves[k] := |h| + k]) && Adds(h, g, c.value.heap, leaves, k, t)
  {
    assert g[..|h|][leaves[k]] == g[leaves[k]] == h[leaves[k]];
  }

  lemma {:induction false} CopyNext(h: Heap, g: Heap, leaves: seq<nat>, k: nat, m: Names)
    requires Placed(leaves) && Below(leaves, |h|) && Backward(h, leaves) && k < |leaves|
    requires CopiedTo(h, g, leaves, k) && Naming(leaves, k, |h|, m)
    ensures var c := CopyLeaf(g, leaves[k], Some(m));
            && c.Some? && c.value.names == Some(m[leaves[k] := |h| + k])
            && CopiedTo(h, c.value.heap, leaves, k + 1)
  {
    var t: Option<nat> := None;
    if h[leaves[k]].res.Some? {
      var i := ReferencePlace(h, leaves, k);
      t := Some(|h| + i);
    }
    LeafAdds(h, g, leaves, k, m, t);
    CopiedNext(h, g, CopyLeaf(g, leaves[k], Some(m)).value.heap, leaves, k, t);
  }

  ghost predicate PrefixCopied(h: Heap, leaves: seq<nat>, k: nat)
    requires Below(leaves, |h|) && k <= |leaves|
  {
    var c := CopyAll(h, leaves[..k], Some(map[]));
    && c.Some? && c.value.names.Some?
    && CopiedTo(h, c.value.heap, leaves, k) && Naming(leaves, k, |h|, c.value.names.value)
  }

  lemma {:induction false} CopyNone(h: Heap, leaves: seq<nat>)
    requires Below(leaves, |h|)
    ensures PrefixCopied(h, leaves, 0)
  {
    assert leaves[..0] == [] && h[..|h|] == h;
  }

  lemma {:induction false} CopySplit(h: Heap, leaves: seq<nat>, k: nat)
    requires Below(leaves, |h|) && k < |leaves| && CopyAll(h, leaves[..k], Some(map[])).Some?
    ensures var c := CopyAll(h, leaves[..k], Some(map[])).value;
            |c.heap| == |h| + k && CopyAll(h, leaves[..k + 1], Some(map[])) == CopyLeaf(c.heap, leaves[k], c.names)
  {
    TakeNext(leaves, k);
    CopyConcat(h, leaves[..k], [leaves[k]], Some(map[]));
    CopyOne(CopyAll(h, leaves[..k], Some(map[])).value.heap, leaves[k],
        CopyAll(h, leaves[..k], Some(map[])).value.names);
  }

  lemma {:induction false} CopyStep(h: Heap, leaves: seq<nat>, k: nat)
    requires Placed(leaves) && Below(leaves, |h|) && Backward(h, leaves) && k < |leaves| && PrefixCopied(h, leaves, k)
    ensures PrefixCopied(h, leaves, k + 1)
  {
    var c := CopyAll(h, leaves[..k], Some(map[])).value;
    CopySplit(h, leaves, k);
    CopyNext(h, c.heap, leaves, k, c.names.value);
    NamingNext(leaves, k, |h|, c.names.value);
  }

  lemma {:induction false} CopyPrefix(h: Heap, leaves: seq<nat>, k: nat)
    requires Placed(leaves) && Below(leaves, |h|) && Backward(h, leaves) && k <= |leaves|
    ensures PrefixCopied(h, leaves, k)
  {
    if k == 0 {
      CopyNone(h, leaves);
    } else {
      CopyPrefix(h, leaves, k - 1);
      CopyStep(h, leaves, k - 1);
    }
  }

  /** A whole copy: new objects in the same order, with the same values, references and uses. */
  lemma {:induction false} CopyIsIsomorphic(h: Heap, leaves: seq<nat>)
    requires Distinct(leaves) && Below(leaves, |h|) && Backward(h, leaves)
    ensures var c := CopyAll(h, leaves, Some(map[]));
            c.Some? && CopiedTo(h, c.value.heap, leaves, |leaves|)
  {
    DistinctPlaced(leaves);
    CopyPrefix(h, leaves, |leaves|);
    assert leaves[..|leaves|] == leaves;
  }

  // ----- a copy without names: references stay with the originals -----

  function NewUsers(h: Heap, leaves: seq<nat>, x: nat): set<nat>
    requires Below(leaves, |h|)
  {
    set j | 0 <= j < |leaves| && h[leaves[j]].res == Some(x) :: |h| + j
  }

  /** References of the leaves are to existing objects. */
  predicate RefsExist(h: Heap, leaves: seq<nat>)
    requires Below(leaves, |h|)
  {
    forall i :: 0 <= i < |leaves| ==> h[leaves[i]].res.Some? ==> h[leaves[i]].res.value < |h|
  }

  ghost predicate Duplicated(h: Heap, h': Heap, leaves: seq<nat>)
    requires Below(leaves, |h|)
  {
    && |h'| == |h| + |leaves|
    && (forall x :: 0 <= x < |h| ==> h'[x] == h[x].(uses := h[x].uses + NewUsers(h, leaves, x)))
    && (forall i: nat :: i < |leaves| ==> IsDuplicate(h, h', leaves[i], |h| + i))
  }

  /** Object b is a duplicate of a: the same reference, and nobody uses it. */
  predicate IsDuplicate(h: Heap, h': Heap, a: nat, b: nat)
    requires a < |h| && b < |h'|
  {
    h'[b] == Object(h[a].res, {}, h[a].val)
  }

  lemma {:induction false} Duplicate(h: Heap, leaves: seq<nat>)
    requires Below(leaves, |h|) && RefsExist(h, leaves)
    ensures var c := CopyAll(h, leaves, None); c.Some? && Duplicated(h, c.value.heap, leaves)
    decreases |leaves|
  {
    if |leaves| > 0 {
      var k := |leaves| - 1;
      Duplicate(h, leaves[..k]);
      DuplicateSplit(h, leaves, k);
      DuplicateNext(h, CopyAll(h, leaves[..k], None).value.heap, leaves, k);
    } else {
      forall x | 0 <= x < |h| ensures NewUsers(h, leaves, x) == {} { }
    }
  }

  lemma {:induction false} DuplicateSplit(h: Heap, leaves: seq<nat>, k: nat)
    requires Below(leaves, |h|) && |leaves| == k + 1 && CopyAll(h, leaves[..k], None).Some?
    ensures |CopyAll(h, leaves[..k], None).value.heap| == |h| + k && CopyAll(h, leaves[..k], None).value.names == None
    ensures CopyAll(h, leaves, None) == CopyLeaf(CopyAll(h, leaves[..k], None).value.heap, leaves[k], None)
  {
    assert leaves == leaves[..k] + [leaves[k]];
    CopyConcat(h, leaves[..k], [leaves[k]], None);
    NoNames(h, leaves[..k]);
    CopyOne(CopyAll(h, leaves[..k], None).value.heap, leaves[k], None);
  }

  lemma {:induction false} NoNames(h: Heap, leaves: seq<nat>)
    requires Below(leaves, |h|)
    ensures CopyAll(h, leaves, None).Some? ==> CopyAll(h, leaves, None).value.names == None
    decreases |leaves|
  {
    if |leaves| > 0 && CopyLeaf(h, leaves[0], None).Some? {
      NoNames(CopyLeaf(h, leaves[0], None).value.heap, leaves[1..]);
    }
  }

  lemma {:induction false} CopyLeafIs(g: Heap, a: nat)
    requires a < |g| && (g[a].res.Some? ==> g[a].res.value < |g|)
    ensures var c := CopyLeaf(g, a, None);
            && c.Some? && |c.value.heap| == |g| + 1 && c.value.heap[|g|] == Object(g[a].res, {}, g[a].val)
            && (forall x :: 0 <= x < |g| ==>
                  c.value.heap[x] == if g[a].res == Some(x) then g[x].(uses := g[x].uses + {|g|}) else g[x])
  {
  }

  lemma {:induction false} DuplicateNext(h: Heap, g: Heap, leaves: seq<nat>, k: nat)
    requires Below(leaves, |h|) && RefsExist(h, leaves) && |leaves| == k + 1 && Duplicated(h, g, leaves[..k])
    ensures var c := CopyLeaf(g, leaves[k], None); c.Some? && Duplicated(h, c.value.heap, leaves)
  {
    var a := leaves[k];
    assert g[a].res == h[a].res && g[a].val == h[a].val;
    CopyLeafIs(g, a);
    var g' := CopyLeaf(g, a, None).value.heap;
    assert forall x :: |h| <= x < |g| ==> g'[x] == g[x];
    forall x | 0 <= x < |h| ensures g'[x] == h[x].(uses := h[x].uses + NewUsers(h, leaves, x)) {
      NewUsersNext(h, leaves, k, x);
    }
    assert IsDuplicate(h, g', a, |h| + k);
    DuplicatesStay(h, g, g', leaves, k);
  }

  lemma {:induction false} DuplicatesStay(h: Heap, g: Heap, g': Heap, leaves: seq<nat>, k: nat)
    requires Below(leaves, |h|) && |leaves| == k + 1 && |g| == |h| + k && |g'| == |g| + 1
    requires forall i: nat :: i < k ==> IsDuplicate(h, g, leaves[..k][i], |h| + i)
    requires IsDuplicate(h, g', leaves[k], |h| + k)
    requires forall x :: |h| <= x < |g| ==> g'[x] == g[x]
    ensures forall i: nat :: i < |leaves| ==> IsDuplicate(h, g', leaves[i], |h| + i)
  {
    forall i: nat | i < |leaves| ensures IsDuplicate(h, g', leaves[i], |h| + i) {
      if i < k { DuplicateStays(h, g, g', leaves, k, i); }
    }
  }

  lemma {:induction false} DuplicateStays(h: Heap, g: Heap, g': Heap, leaves: seq<nat>, k: nat, i: nat)
    requires Below(leaves, |h|) && i < k < |leaves| && |g| == |h| + k && |g'| == |g| + 1
    requires IsDuplicate(h, g, leaves[..k][i], |h| + i)
    requires forall x :: |h| <= x < |g| ==> g'[x] == g[x]
    ensures IsDuplicate(h, g', leaves[i], |h| + i)
  {
  }

  lemma {:induction false} NewUsersNext(h: Heap, leaves: seq<nat>, k: nat, x: nat)
    requires Below(leaves, |h|) && |leaves| == k + 1
    ensures NewUsers(h, leaves, x) ==
            NewUsers(h, leaves[..k], x) + (if h[leaves[k]].res == Some(x) then {|h| + k} else {})
  {
  }
}
