/**
 Programs that run some of their calls twice (DoubleExecCollide and DupCallCollide in
 prog/collide.go), built on copies of the program and of its calls.
 */
module Collide {
  import opened Basics
  import opened Counting
  import opened Clone

  const MAX_CALLS: nat := 40
  const MAX_ASYNC: nat := 24

  // ----- the resource graph of a program -----

  function Users(h: Heap, s: set<nat>, a: nat): set<nat> {
    set b | b in s && b < |h| && h[b].res == Some(a)
  }

  /** References stay inside s, and uses is exactly their inverse. */
  ghost predicate Graph(h: Heap, s: set<nat>) {
    forall a :: a in s ==> a < |h| && Linked(h, s, a)
  }

  ghost predicate Linked(h: Heap, s: set<nat>, a: nat)
    requires a < |h|
  {
    && (h[a].res.Some? ==> h[a].res.value in s)
    && h[a].uses == Users(h, s, a)
  }

  /** No resource of the call refers to another resource of the same call. */
  predicate SelfFree(h: Heap, c: Call) {
    forall a :: a in CallLeaves(c) && a < |h| && h[a].res.Some? ==> h[a].res.value !in CallLeaves(c)
  }

  /** References go from one call to another. */
  ghost predicate AcrossCalls(h: Heap, calls: seq<Call>) {
    forall i :: 0 <= i < |calls| ==> SelfFree(h, calls[i])
  }

  /** Apart from the order of references: resources of its own, and uses kept exactly. */
  ghost predicate Sound(h: Heap, calls: seq<Call>) {
    var leaves := ProgLeaves(calls);
    Below(leaves, |h|) && Distinct(leaves) && Graph(h, Members(leaves))
  }

  /** A well-formed program: resources of its own, references to earlier resources, uses kept exactly. */
  ghost predicate Ok(h: Heap, calls: seq<Call>) {
    Sound(h, calls) && Backward(h, ProgLeaves(calls))
  }

  // ----- copies -----

  lemma {:induction false} CopyBackward(h: Heap, h': Heap, leaves: seq<nat>)
    requires Below(leaves, |h|) && Placed(leaves) && CopiedTo(h, h', leaves, |leaves|) && Backward(h, leaves)
    ensures Below(From(|h|, |leaves|), |h'|) && Backward(h', From(|h|, |leaves|))
  {
    var leaves' := From(|h|, |leaves|);
    forall i: nat {:trigger RefersBack(h', leaves', i)} | i < |leaves'| ensures RefersBack(h', leaves', i) {
      assert IsCopy(h, h', leaves, |leaves|, i) && RefersBack(h, leaves, i);
      if h[leaves[i]].res.Some? {
        var j :| 0 <= j < i && leaves[..i][j] == h[leaves[i]].res.value;
        assert leaves[j] == h[leaves[i]].res.value && IndexOf(leaves, leaves[j]) == j;
        assert leaves'[..i][j] == |h| + j;
      }
    }
  }

  /** The leaves of call i inside those of the program, which begin at o. */
  lemma {:induction false} CopySelf(h: Heap, h': Heap, leaves: seq<nat>, o: nat, calls: seq<Call>, i: nat)
    requires Below(leaves, |h|) && Placed(leaves) && CopiedTo(h, h', leaves, |leaves|) && Graph(h, Members(leaves))
    requires o <= |leaves| && leaves[o..] == ProgLeaves(calls) && i < |calls|
    ensures |RelabelProg(calls, |h| + o)| == |calls|
    ensures SelfFree(h', RelabelProg(calls, |h| + o)[i]) <==> SelfFree(h, calls[i])
    decreases |calls|
  {
    var k := |CallLeaves(calls[0])|;
    FirstCall(leaves, o, calls, k);
    if i == 0 {
      RelabelFirst(calls, |h| + o);
      CopySelfCall(h, h', leaves, o, k, calls[0], RelabelCall(calls[0], |h| + o));
    } else {
      CopySelf(h, h', leaves, o + k, calls[1..], i - 1);
      RelabelNext(calls, |h| + o, |h| + (o + k), i);
    }
  }

  lemma {:induction false} RelabelFirst(calls: seq<Call>, n: nat)
    requires |calls| > 0
    ensures |RelabelProg(calls, n)| == |calls| && RelabelProg(calls, n)[0] == RelabelCall(calls[0], n)
    ensures CallLeaves(RelabelCall(calls[0], n)) == From(n, |CallLeaves(calls[0])|)
  {
    RelabelLength(calls, n);
    RelabelCallLeaves(calls[0], n);
  }

  lemma {:induction false} RelabelNext(calls: seq<Call>, n: nat, m: nat, i: nat)
    requires 0 < i < |calls| && m == n + |CallLeaves(calls[0])|
    ensures |RelabelProg(calls, n)| == |calls| && |RelabelProg(calls[1..], m)| == |calls| - 1
    ensures RelabelProg(calls, n)[i] == RelabelProg(calls[1..], m)[i - 1] && calls[i] == calls[1..][i - 1]
  {
    RelabelLength(calls, n);
    RelabelLength(calls[1..], m);
  }

  lemma {:induction false} FirstCall(leaves: seq<nat>, o: nat, calls: seq<Call>, k: nat)
    requires o <= |leaves| && |calls| > 0 && leaves[o..] == ProgLeaves(calls) && k == |CallLeaves(calls[0])|
    ensures o + k <= |leaves| && leaves[o..o + k] == CallLeaves(calls[0]) && leaves[o + k..] == ProgLeaves(calls[1..])
  {
    assert leaves[o..][..k] == CallLeaves(calls[0]) && leaves[o..][k..] == ProgLeaves(calls[1..]);
    assert leaves[o..o + k] == leaves[o..][..k] && leaves[o + k..] == leaves[o..][k..];
  }

  lemma {:induction false} CopySelfCall(h: Heap, h': Heap, leaves: seq<nat>, o: nat, k: nat, c: Call, c': Call)
    requires Below(leaves, |h|) && Placed(leaves) && CopiedTo(h, h', leaves, |leaves|) && Graph(h, Members(leaves))
    requires o + k <= |leaves| && leaves[o..o + k] == CallLeaves(c) && CallLeaves(c') == From(|h| + o, k)
    ensures SelfFree(h', c') <==> SelfFree(h, c)
  {
    var m, m' := CallLeaves(c), CallLeaves(c');
    forall j: nat | j < k
      ensures m[j] == leaves[o + j] && m'[j] == |h| + (o + j) && m[j] in m && m'[j] in m'
      ensures h[m[j]].res.Some? == h'[m'[j]].res.Some?
      ensures h[m[j]].res.Some? ==> (h'[m'[j]].res.value in m' <==> h[m[j]].res.value in m)
    {
      SelfReference(h, h', leaves, o, k, m, m', j);
    }
  }

  lemma {:induction false} SelfReference(h: Heap, h': Heap, leaves: seq<nat>, o: nat, k: nat, m: seq<nat>, m': seq<nat>,
                                         j: nat)
    requires Below(leaves, |h|) && Placed(leaves) && CopiedTo(h, h', leaves, |leaves|) && Graph(h, Members(leaves))
    requires j < k && o + k <= |leaves| && leaves[o..o + k] == m && m' == From(|h| + o, k)
    ensures m[j] == leaves[o + j] && m'[j] == |h| + (o + j)
    ensures h[m[j]].res.Some? == h'[m'[j]].res.Some?
    ensures h[m[j]].res.Some? ==> (h'[m'[j]].res.value in m' <==> h[m[j]].res.value in m)
  {
    assert IsCopy(h, h', leaves, |leaves|, o + j);
    assert leaves[o + j] in Members(leaves);
    if h[m[j]].res.Some? {
      var r := h[m[j]].res.value;
      assert r in leaves;
      var x := IndexOf(leaves, r);
      assert r in m <==> o <= x < o + k by {
        if r in m {
          var y :| 0 <= y < k && m[y] == r;
          assert leaves[o + y] == r && IndexOf(leaves, leaves[o + y]) == o + y;
        }
        if o <= x < o + k { assert m[x - o] == r; }
      }
      FromHas(|h| + o, k, |h| + x);
    }
  }

  lemma {:induction false} FromHas(n: nat, k: nat, x: nat)
    ensures x in From(n, k) <==> n <= x < n + k
  {
    if n <= x < n + k { assert From(n, k)[x - n] == x; }
  }

  lemma {:induction false} CopyLinked(h: Heap, h': Heap, leaves: seq<nat>, i: nat)
    requires Below(leaves, |h|) && Placed(leaves) && CopiedTo(h, h', leaves, |leaves|) && i < |leaves|
             && Graph(h, Members(leaves))
    ensures Linked(h', Members(From(|h|, |leaves|)), |h| + i)
    ensures h'[|h| + i].uses == {} <==> h[leaves[i]].uses == {}
  {
    var n, m := |h|, |leaves|;
    var s := Members(From(n, m));
    FromIds(n, m);
    assert IsCopy(h, h', leaves, m, i);
    forall j: nat | j < m ensures h'[n + j].res == Some(n + i) <==> h[leaves[j]].res == Some(leaves[i]) {
      assert IsCopy(h, h', leaves, m, j);
      ReferenceKept(h, leaves, j, i);
    }
    forall b: nat ensures b in CopiedUses(h, leaves, m, i) <==> b in Users(h', s, n + i) {
      if n <= b < n + m { assert h'[n + (b - n)].res == Some(n + i) <==> h[leaves[b - n]].res == Some(leaves[i]); }
    }
    assert CopiedUses(h, leaves, m, i) == Users(h', s, n + i);
    UsesCopied(h, leaves, i);
  }

  lemma {:induction false} FromIds(n: nat, m: nat)
    ensures forall b :: b in Members(From(n, m)) <==> n <= b < n + m
  {
    forall b | n <= b < n + m ensures b in From(n, m) { assert From(n, m)[b - n] == b; }
  }

  lemma {:induction false} ReferenceKept(h: Heap, leaves: seq<nat>, j: nat, i: nat)
    requires Below(leaves, |h|) && Placed(leaves) && i < |leaves| && j < |leaves| && Graph(h, Members(leaves))
    ensures Renamed(h[leaves[j]].res, leaves, |h|) == Some(|h| + i) <==> h[leaves[j]].res == Some(leaves[i])
  {
    assert IndexOf(leaves, leaves[i]) == i;
  }

  lemma {:induction false} UsesCopied(h: Heap, leaves: seq<nat>, i: nat)
    requires Below(leaves, |h|) && i < |leaves| && Graph(h, Members(leaves))
    ensures CopiedUses(h, leaves, |leaves|, i) == {} <==> h[leaves[i]].uses == {}
  {
    var u := h[leaves[i]].uses;
    assert leaves[i] in Members(leaves);
    assert u == Users(h, Members(leaves), leaves[i]);
    if b: nat :| b in u {
      var j :| 0 <= j < |leaves| && leaves[j] == b;
      assert |h| + j in CopiedUses(h, leaves, |leaves|, i);
    } else {
      assert u == {};
    }
    if c: nat :| c in CopiedUses(h, leaves, |leaves|, i) {
      assert leaves[c - |h|] in u;
    } else {
      assert CopiedUses(h, leaves, |leaves|, i) == {};
    }
  }

  /** Clone: the copy is well-formed, the original is untouched, and the same resources are in use. */
  lemma {:induction false} CloneIsOk(h: Heap, calls: seq<Call>)
    requires Ok(h, calls)
    ensures var leaves := ProgLeaves(calls);
            var c := CopyAll(h, leaves, Some(map[]));
            && c.Some? && |c.value.heap| == |h| + |leaves| && c.value.heap[..|h|] == h
            && Ok(c.value.heap, RelabelProg(calls, |h|))
            && forall i :: 0 <= i < |leaves| ==> (c.value.heap[|h| + i].uses == {} <==> h[leaves[i]].uses == {})
  {
    var leaves := ProgLeaves(calls);
    CopyIsIsomorphic(h, leaves);
    DistinctPlaced(leaves);
    var h' := CopyAll(h, leaves, Some(map[])).value.heap;
    RelabelProgLeaves(calls, |h|);
    CopyBackward(h, h', leaves);
    FromIds(|h|, |leaves|);
    forall a | a in Members(From(|h|, |leaves|)) ensures a < |h'| && Linked(h', Members(From(|h|, |leaves|)), a) {
      CopyLinked(h, h', leaves, a - |h|);
    }
    forall i | 0 <= i < |leaves| ensures h'[|h| + i].uses == {} <==> h[leaves[i]].uses == {} {
      CopyLinked(h, h', leaves, i);
    }
  }

  /** A copied call refers to itself exactly if the original does. */
  lemma {:induction false} CloneSelf(h: Heap, calls: seq<Call>)
    requires Ok(h, calls)
    ensures var c := CopyAll(h, ProgLeaves(calls), Some(map[]));
            && c.Some? && |RelabelProg(calls, |h|)| == |calls|
            && forall i :: 0 <= i < |calls| ==>
               (SelfFree(c.value.heap, RelabelProg(calls, |h|)[i]) <==> SelfFree(h, calls[i]))
  {
    var leaves := ProgLeaves(calls);
    CopyIsIsomorphic(h, leaves);
    DistinctPlaced(leaves);
    RelabelLength(calls, |h|);
    var h' := CopyAll(h, leaves, Some(map[])).value.heap;
    assert leaves[0..] == leaves && |h| + 0 == |h|;
    forall i | 0 <= i < |calls| ensures SelfFree(h', RelabelProg(calls, |h|)[i]) <==> SelfFree(h, calls[i]) {
      CopySelf(h, h', leaves, 0, calls, i);
    }
  }

  // ----- duplicates -----

  /** Resources that need a result index. */
  function Used(h: Heap, s: set<nat>): set<nat> { set a | a in s && a < |h| && h[a].uses != {} }

  /** Duplicating some resource objects of a graph: the graph grows, but no further resource comes into use. */
  lemma {:induction false} DuplicateGraph(h: Heap, h': Heap, s: set<nat>, leaves: seq<nat>)
    requires Graph(h, s) && Below(leaves, |h|) && Members(leaves) <= s && Duplicated(h, h', leaves)
    ensures var s' := s + Members(From(|h|, |leaves|));
            Graph(h', s') && Used(h', s') == Used(h, s)
  {
    var n := |h|;
    var s' := s + Members(From(n, |leaves|));
    FromIds(n, |leaves|);
    forall a | a in s' ensures a < |h'| && Linked(h', s', a) {
      if a < n { OldLinked(h, h', s, leaves, a); } else { NewLinked(h, h', s, leaves, a - n); }
    }
    forall a: nat ensures a in Used(h', s') <==> a in Used(h, s) {
      if a in s { OldUsed(h, h', s, leaves, a); }
      if n <= a < n + |leaves| { assert IsDuplicate(h, h', leaves[a - n], n + (a - n)); }
    }
    assert Used(h', s') == Used(h, s);
  }

  lemma {:induction false} OldLinked(h: Heap, h': Heap, s: set<nat>, leaves: seq<nat>, a: nat)
    requires Graph(h, s) && Below(leaves, |h|) && Members(leaves) <= s && Duplicated(h, h', leaves) && a in s
    ensures a < |h| && Linked(h', s + Members(From(|h|, |leaves|)), a)
  {
    var n := |h|;
    var s' := s + Members(From(n, |leaves|));
    FromIds(n, |leaves|);
    assert Linked(h, s, a);
    forall b: nat ensures b in Users(h', s', a) <==> b in Users(h, s, a) + NewUsers(h, leaves, a) {
      if b in s { assert h'[b].res == h[b].res; }
      if n <= b < n + |leaves| { assert IsDuplicate(h, h', leaves[b - n], n + (b - n)); }
    }
    assert Users(h', s', a) == Users(h, s, a) + NewUsers(h, leaves, a);
  }

  lemma {:induction false} NewLinked(h: Heap, h': Heap, s: set<nat>, leaves: seq<nat>, i: nat)
    requires Graph(h, s) && Below(leaves, |h|) && Members(leaves) <= s && Duplicated(h, h', leaves) && i < |leaves|
    ensures |h| + i < |h'| && Linked(h', s + Members(From(|h|, |leaves|)), |h| + i)
  {
    var n := |h|;
    var s' := s + Members(From(n, |leaves|));
    FromIds(n, |leaves|);
    assert IsDuplicate(h, h', leaves[i], n + i);
    assert leaves[i] in Members(leaves);
    var u := Users(h', s', n + i);
    forall b: nat ensures b !in u {
      if b in s { assert Linked(h, s, b) && h'[b].res == h[b].res; }
      if n <= b < n + |leaves| {
        assert IsDuplicate(h, h', leaves[b - n], n + (b - n));
        assert leaves[b - n] in Members(leaves);
      }
    }
    assert u == {};
  }

  lemma {:induction false} OldUsed(h: Heap, h': Heap, s: set<nat>, leaves: seq<nat>, a: nat)
    requires Graph(h, s) && Below(leaves, |h|) && Members(leaves) <= s && Duplicated(h, h', leaves) && a in s
    ensures a < |h| && (h'[a].uses == {} <==> h[a].uses == {})
  {
    assert Linked(h, s, a);
    if c: nat :| c in NewUsers(h, leaves, a) {
      var j := c - |h|;
      assert leaves[j] in Members(leaves);
      assert leaves[j] in h[a].uses;
    } else {
      assert NewUsers(h, leaves, a) == {};
    }
  }

  // ----- putting calls together -----

  lemma {:induction false} LeavesConcat(a: seq<Call>, b: seq<Call>)
    ensures ProgLeaves(a + b) == ProgLeaves(a) + ProgLeaves(b)
  {
    if |a| == 0 {
      assert a + b == b;
    } else {
      assert (a + b)[1..] == a[1..] + b;
      LeavesConcat(a[1..], b);
    }
  }

  predicate RefersTo(h: Heap, a: nat, targets: seq<nat>)
    requires a < |h|
  {
    h[a].res.Some? ==> h[a].res.value in targets
  }

  lemma {:induction false} BackwardConcat(h: Heap, a: seq<nat>, b: seq<nat>)
    requires Below(a, |h|) && Below(b, |h|)
    ensures Below(a + b, |h|)
    ensures Backward(h, a + b) <==>
            Backward(h, a) && forall j: nat {:trigger b[j]} :: j < |b| ==> RefersTo(h, b[j], a + b[..j])
  {
    var s := a + b;
    forall i: nat {:trigger RefersBack(h, a, i)} | i < |a| ensures RefersBack(h, s, i) <==> RefersBack(h, a, i) {
      assert s[..i] == a[..i];
    }
    forall j: nat {:trigger b[j]} | j < |b| ensures RefersBack(h, s, |a| + j) <==> RefersTo(h, b[j], a + b[..j]) {
      assert s[..|a| + j] == a + b[..j];
    }
    if Backward(h, a) && forall j: nat {:trigger b[j]} :: j < |b| ==> RefersTo(h, b[j], a + b[..j]) {
      forall i: nat {:trigger RefersBack(h, s, i)} | i < |s| ensures RefersBack(h, s, i) {
        if i < |a| { assert RefersBack(h, a, i); } else { assert RefersTo(h, b[i - |a|], a + b[..i - |a|]); }
      }
    }
    if Backward(h, s) {
      forall i: nat {:trigger RefersBack(h, a, i)} | i < |a| ensures RefersBack(h, a, i) { assert RefersBack(h, s, i); }
      forall j: nat {:trigger b[j]} | j < |b|
          ensures RefersTo(h, b[j], a + b[..j]) { assert RefersBack(h, s, |a| + j); }
    }
  }

  /** Only references matter. */
  lemma {:induction false} BackwardSame(h: Heap, h': Heap, a: seq<nat>)
    requires Below(a, |h|) && Grows(h, h')
    ensures Below(a, |h'|) && (Backward(h', a) <==> Backward(h, a))
  {
    forall i: nat {:trigger RefersBack(h, a, i)} | i < |a| ensures RefersBack(h', a, i) <==> RefersBack(h, a, i) { }
    if Backward(h', a) {
      forall i: nat {:trigger RefersBack(h, a, i)} | i < |a|
          ensures RefersBack(h, a, i) { assert RefersBack(h', a, i); }
    }
    if Backward(h, a) {
      forall i: nat {:trigger RefersBack(h', a, i)} | i < |a|
          ensures RefersBack(h', a, i) { assert RefersBack(h, a, i); }
    }
  }

  lemma {:induction false} SelfFreeSame(h: Heap, h': Heap, c: Call)
    requires Below(CallLeaves(c), |h|) && Grows(h, h')
    ensures SelfFree(h', c) <==> SelfFree(h, c)
  {
    var m := CallLeaves(c);
    assert forall a :: a in m ==> a < |h| && h'[a].res == h[a].res;
  }

  function Marked(c: Call, async: bool): Call { c.(async := async) }

  lemma {:induction false} MarkedLeaves(calls: seq<Call>, calls': seq<Call>)
    requires |calls| == |calls'| && forall i :: 0 <= i < |calls| ==> calls'[i] == Marked(calls[i], calls'[i].async)
    ensures ProgLeaves(calls') == ProgLeaves(calls)
  {
    if |calls| > 0 {
      assert calls'[0] == Marked(calls[0], calls'[0].async);
      MarkedLeaves(calls[1..], calls'[1..]);
    }
  }

  lemma {:induction false} DistinctJoin(l: seq<nat>, n: nat, k: nat)
    requires Distinct(l) && Below(l, n)
    ensures Distinct(l + From(n, k)) && Members(l + From(n, k)) == Members(l) + Members(From(n, k))
  {
  }

  /** The duplicates of a whole program, behind it. */
  lemma {:induction false} DuplicatedProgram(h: Heap, h': Heap, calls: seq<Call>, dups: seq<Call>)
    requires Ok(h, calls) && Duplicated(h, h', ProgLeaves(calls)) && ProgLeaves(dups) == From(|h|, |ProgLeaves(calls)|)
    ensures Ok(h', calls + dups)
    ensures Used(h', Members(ProgLeaves(calls + dups))) == Used(h, Members(ProgLeaves(calls)))
  {
    var l := ProgLeaves(calls);
    LeavesConcat(calls, dups);
    DuplicateGraph(h, h', Members(l), l);
    DistinctJoin(l, |h|, |l|);
    DuplicatesAreTwins(h, h', l);
    BackwardSame(h, h', l);
    var b := From(|h|, |l|);
    forall j: nat {:trigger b[j]} | j < |b| ensures RefersTo(h', b[j], l + b[..j]) {
      assert IsDuplicate(h, h', l[j], |h| + j);
      assert l[j] in Members(l);
    }
    BackwardConcat(h', l, b);
  }

  // ----- result indices -----

  /** How many result indices serialization allocates for these resources. */
  function Indices(h: Heap, leaves: seq<nat>): nat
    requires Below(leaves, |h|)
  {
    if |leaves| == 0 then 0 else (if h[leaves[0]].uses != {} then 1 else 0) + Indices(h, leaves[1..])
  }

  lemma {:induction false} IndicesCount(h: Heap, leaves: seq<nat>)
    requires Below(leaves, |h|) && Distinct(leaves)
    ensures Indices(h, leaves) == |Used(h, Members(leaves))|
  {
    if |leaves| == 0 {
      assert Used(h, Members(leaves)) == {};
    } else {
      var a, rest := leaves[0], leaves[1..];
      IndicesCount(h, rest);
      assert leaves == [a] + rest;
      assert a !in Members(rest);
      if h[a].uses != {} {
        assert Used(h, Members(leaves)) == Used(h, Members(rest)) + {a};
      } else {
        assert Used(h, Members(leaves)) == Used(h, Members(rest));
      }
    }
  }

  lemma {:induction false} IndicesSame(h: Heap, leaves: seq<nat>, h': Heap, leaves': seq<nat>)
    requires Below(leaves, |h|) && Below(leaves', |h'|) && |leaves| == |leaves'|
    requires forall i :: 0 <= i < |leaves| ==> (h'[leaves'[i]].uses == {} <==> h[leaves[i]].uses == {})
    ensures Indices(h', leaves') == Indices(h, leaves)
  {
    if |leaves| > 0 { IndicesSame(h, leaves[1..], h', leaves'[1..]); }
  }

  lemma {:induction false} SameUsedSameIndices(h: Heap, leaves: seq<nat>, h': Heap, leaves': seq<nat>)
    requires Below(leaves, |h|) && Distinct(leaves) && Below(leaves', |h'|) && Distinct(leaves')
    requires Used(h, Members(leaves)) == Used(h', Members(leaves'))
    ensures Indices(h', leaves') == Indices(h, leaves)
  {
    IndicesCount(h, leaves);
    IndicesCount(h', leaves');
  }

  // ----- the code -----

  datatype Collided = Collided(heap: Heap, calls: seq<Call>)

  /** The objects behind those of h hold the values of the leaves and their references, renamed. */
  ghost predicate Mirrors(h: Heap, leaves: seq<nat>, h': Heap)
    requires Below(leaves, |h|)
  {
    |h| + |leaves| <= |h'| && forall i: nat :: i < |leaves| ==> IsMirror(h, leaves, h', i)
  }

  ghost predicate IsMirror(h: Heap, leaves: seq<nat>, h': Heap, i: nat)
    requires Below(leaves, |h|) && i < |leaves| && |h| + i < |h'|
  {
    h'[|h| + i].val == h[leaves[i]].val && h'[|h| + i].res == Renamed(h[leaves[i]].res, leaves, |h|)
  }

  /** Objects keep their values and references; only their uses may grow. */
  ghost predicate Grows(h: Heap, h': Heap) {
    |h| <= |h'| && forall x :: 0 <= x < |h| ==> h'[x].val == h[x].val && h'[x].res == h[x].res
  }

  lemma {:induction false} MirrorsStay(h: Heap, leaves: seq<nat>, g: Heap, g': Heap)
    requires Below(leaves, |h|) && Mirrors(h, leaves, g) && Grows(g, g')
    ensures Mirrors(h, leaves, g')
  {
    forall i: nat | i < |leaves| ensures IsMirror(h, leaves, g', i) { assert IsMirror(h, leaves, g, i); }
  }

  lemma {:induction false} CopyMirrors(h: Heap, calls: seq<Call>)
    requires Ok(h, calls)
    ensures var c := CopyAll(h, ProgLeaves(calls), Some(map[])); c.Some? && Mirrors(h, ProgLeaves(calls), c.value.heap)
  {
    var leaves := ProgLeaves(calls);
    CopyIsIsomorphic(h, leaves);
    var h' := CopyAll(h, leaves, Some(map[])).value.heap;
    forall i: nat | i < |leaves| ensures IsMirror(h, leaves, h', i) { assert IsCopy(h, h', leaves, |leaves|, i); }
  }

  /** Object n + i has the value and the reference of leaf i. */
  predicate Twin(h: Heap, leaves: seq<nat>, n: nat, i: nat)
    requires i < |leaves|
  {
    var a, b := leaves[i], n + i;
    a < |h| && b < |h| && h[b].val == h[a].val && h[b].res == h[a].res
  }

  ghost predicate Twins(h: Heap, leaves: seq<nat>, n: nat) {
    forall i: nat :: i < |leaves| ==> Twin(h, leaves, n, i)
  }

  lemma {:induction false} DuplicatesAreTwins(h: Heap, h': Heap, leaves: seq<nat>)
    requires Below(leaves, |h|) && Duplicated(h, h', leaves)
    ensures Grows(h, h') && Twins(h', leaves, |h|)
  {
    forall i: nat | i < |leaves| ensures Twin(h', leaves, |h|, i) {
      assert IsDuplicate(h, h', leaves[i], |h| + i);
    }
  }

  lemma {:induction false} TwinsStay(h: Heap, h': Heap, leaves: seq<nat>, n: nat)
    requires Twins(h, leaves, n) && Grows(h, h')
    ensures Twins(h', leaves, n)
  {
    forall i: nat | i < |leaves| ensures Twin(h', leaves, n, i) { assert Twin(h, leaves, n, i); }
  }

  /** Clone */
  method CloneProg(heap: Heap, calls: seq<Call>) returns (r: Collided)
    requires Ok(heap, calls)
    ensures r.calls == RelabelProg(calls, |heap|) && Mirrors(heap, ProgLeaves(calls), r.heap)
    ensures |r.calls| == |calls| && Ok(r.heap, r.calls) && heap <= r.heap
    ensures forall i :: 0 <= i < |calls| ==> (SelfFree(r.heap, r.calls[i]) <==> SelfFree(heap, calls[i]))
    ensures |r.heap| == |heap| + |ProgLeaves(calls)|
    ensures forall i :: 0 <= i < |ProgLeaves(r.calls)| ==> ProgLeaves(r.calls)[i] >= |heap|
    ensures Indices(r.heap, ProgLeaves(r.calls)) == Indices(heap, ProgLeaves(calls))
  {
    var w := new Cloner(heap, Some(map[]));
    CloneIsOk(heap, calls);
    CloneSelf(heap, calls);
    CopyMirrors(heap, calls);
    RelabelProgLeaves(calls, |heap|);
    var c := w.CloneCalls(calls);
    IndicesSame(heap, ProgLeaves(calls), w.heap, From(|heap|, |ProgLeaves(calls)|));
    return Collided(w.heap, c.value);
  }

  lemma {:induction false} RelabelLength(calls: seq<Call>, n: nat)
    ensures |RelabelProg(calls, n)| == |calls|
  {
    if |calls| > 0 { RelabelLength(calls[1..], n + |CallLeaves(calls[0])|); }
  }

  /** The first calls of the list become asynchronous, up to the limit. */
  method MarkAsync(calls: seq<Call>) returns (r: seq<Call>)
    ensures |r| == |calls|
    ensures forall i :: 0 <= i < |r| ==> r[i] == Marked(calls[i], i < MAX_ASYNC || calls[i].async)
  {
    r := calls;
    var left := MAX_ASYNC;
    var i := 0;
    while i < |calls| && left > 0
      invariant 0 <= i <= |calls| == |r| && left == MAX_ASYNC - i
      invariant forall j :: 0 <= j < |r| ==> r[j] == if j < i then Marked(calls[j], true) else calls[j]
    {
      r := r[i := Marked(r[i], true)];
      left := left - 1;
      i := i + 1;
    }
  }

  /** Resource objects from n on, which belong to duplicated calls, are referred to by nobody. */
  ghost predicate NobodyUses(c: Collided, n: nat) {
    forall a :: a in ProgLeaves(c.calls) && a >= n ==> a < |c.heap| && c.heap[a].uses == {}
  }

  /** A copy of the program, then a duplicate of each of its calls, the first of them asynchronous. */
  ghost predicate Doubled(heap: Heap, calls: seq<Call>, r: Collided)
    requires Below(ProgLeaves(calls), |heap|)
  {
    var p, k, n := RelabelProg(calls, |heap|), |ProgLeaves(calls)|, |calls|;
    var d := RelabelProg(p, |heap| + k);
    && |p| == |d| == n && |r.calls| == 2 * n && r.calls[..n] == p
    && (forall i :: 0 <= i < n ==> r.calls[n + i] == Marked(d[i], i < MAX_ASYNC || d[i].async))
    && Mirrors(heap, ProgLeaves(calls), r.heap) && Twins(r.heap, ProgLeaves(p), |heap| + k)
  }

  lemma {:induction false} AllAreTwice(heap: Heap, calls: seq<Call>, p: Collided, q: Collided)
    requires Below(ProgLeaves(calls), |heap|) && |p.calls| == |calls| && |p.heap| == |heap| + |ProgLeaves(calls)|
    requires p.calls == RelabelProg(calls, |heap|) && Mirrors(heap, ProgLeaves(calls), p.heap)
    requires Below(ProgLeaves(p.calls), |p.heap|) && Duplicated(p.heap, q.heap, ProgLeaves(p.calls))
             && |q.calls| == |calls|
    requires var d := RelabelProg(p.calls, |p.heap|);
             |d| == |calls| && forall i :: 0 <= i < |d| ==> q.calls[i] == Marked(d[i], i < MAX_ASYNC || d[i].async)
    ensures Doubled(heap, calls, Collided(q.heap, p.calls + q.calls))
  {
    DuplicatesAreTwins(p.heap, q.heap, ProgLeaves(p.calls));
    MirrorsStay(heap, ProgLeaves(calls), p.heap, q.heap);
    var all := p.calls + q.calls;
    assert all[..|calls|] == p.calls;
    assert forall i :: 0 <= i < |calls| ==> all[|calls| + i] == q.calls[i];
  }

  /** DoubleExecCollide */
  method DoubleExec(heap: Heap, calls: seq<Call>) returns (r: Option<Collided>)
    requires Ok(heap, calls)
    ensures r.None? <==> 2 * |calls| > MAX_CALLS
    ensures r.Some? ==>
              && |r.value.calls| == 2 * |calls| && Ok(r.value.heap, r.value.calls) && heap <= r.value.heap
              && Indices(r.value.heap, ProgLeaves(r.value.calls)) == Indices(heap, ProgLeaves(calls))
              && NobodyUses(r.value, |heap| + |ProgLeaves(calls)|)
    ensures r.Some? ==> Doubled(heap, calls, r.value)
    ensures r.Some? && AcrossCalls(heap, calls) ==> AcrossCalls(r.value.heap, r.value.calls)
  {
    if |calls| * 2 > MAX_CALLS { return None; }
    var p := CloneProg(heap, calls);
    var q := DuplicateCalls(p);
    RefsAbove(p.heap, ProgLeaves(p.calls), |heap|);
    PrefixOfDuplicated(heap, p.heap, q.heap, ProgLeaves(p.calls));
    AllAreTwice(heap, calls, p, q);
    return Some(Collided(q.heap, p.calls + q.calls));
  }

  /** The second half: duplicates of all calls, some of them asynchronous, that refer to the first half. */
  method DuplicateCalls(p: Collided) returns (q: Collided)
    requires Ok(p.heap, p.calls)
    ensures Duplicated(p.heap, q.heap, ProgLeaves(p.calls))
    ensures var d := RelabelProg(p.calls, |p.heap|);
            && |d| == |q.calls| == |p.calls|
            && forall i :: 0 <= i < |d| ==> q.calls[i] == Marked(d[i], i < MAX_ASYNC || d[i].async)
    ensures Ok(q.heap, p.calls + q.calls)
    ensures Indices(q.heap, ProgLeaves(p.calls + q.calls)) == Indices(p.heap, ProgLeaves(p.calls))
    ensures NobodyUses(Collided(q.heap, p.calls + q.calls), |p.heap|)
    ensures AcrossCalls(p.heap, p.calls) ==> AcrossCalls(q.heap, p.calls + q.calls)
  {
    ghost var leaves := ProgLeaves(p.calls);
    var w := new Cloner(p.heap, None);
    GraphExists(p.heap, leaves);
    Duplicate(p.heap, leaves);
    var d := w.CloneCalls(p.calls);
    RelabelProgLeaves(p.calls, |p.heap|);
    RelabelLength(p.calls, |p.heap|);
    var dups := MarkAsync(d.value);
    MarkedLeaves(d.value, dups);
    DuplicatedProgram(p.heap, w.heap, p.calls, dups);
    if AcrossCalls(p.heap, p.calls) { DoubleAcross(p.heap, w.heap, p.calls, dups); }
    SameUsedSameIndices(p.heap, leaves, w.heap, ProgLeaves(p.calls + dups));
    UnusedAbove(p.heap, leaves, w.heap, ProgLeaves(p.calls + dups));
    return Collided(w.heap, dups);
  }

  lemma {:induction false} GraphExists(h: Heap, leaves: seq<nat>)
    requires Below(leaves, |h|) && Graph(h, Members(leaves))
    ensures RefsExist(h, leaves)
  {
    forall i | 0 <= i < |leaves| ensures h[leaves[i]].res.Some? ==> h[leaves[i]].res.value < |h| {
      assert leaves[i] in Members(leaves);
    }
  }

  /** Objects that nobody refers to stay as they are. */
  lemma {:induction false} PrefixOfDuplicated(h0: Heap, h: Heap, h': Heap, leaves: seq<nat>)
    requires h0 <= h && Below(leaves, |h|) && Duplicated(h, h', leaves)
    requires forall i :: 0 <= i < |leaves| && h[leaves[i]].res.Some? ==> h[leaves[i]].res.value >= |h0|
    ensures h0 <= h'
  {
    forall x | 0 <= x < |h0| ensures h'[x] == h0[x] {
      assert NewUsers(h, leaves, x) == {};
    }
  }

  lemma {:induction false} RefsAbove(h: Heap, leaves: seq<nat>, n: nat)
    requires Below(leaves, |h|) && Graph(h, Members(leaves)) && forall i :: 0 <= i < |leaves| ==> leaves[i] >= n
    ensures forall i :: 0 <= i < |leaves| && h[leaves[i]].res.Some? ==> h[leaves[i]].res.value >= n
  {
    forall i | 0 <= i < |leaves| && h[leaves[i]].res.Some? ensures h[leaves[i]].res.value >= n {
      assert leaves[i] in Members(leaves);
    }
  }

  // ----- references across calls -----

  lemma {:induction false} CallLeavesIn(calls: seq<Call>, i: nat, x: nat)
    requires i < |calls| && x in CallLeaves(calls[i])
    ensures x in ProgLeaves(calls)
  {
    if i > 0 { CallLeavesIn(calls[1..], i - 1, x); }
  }

  /** New resources that refer only to old ones. */
  lemma {:induction false} NewIsSelfFree(h: Heap, c: Call, n: nat)
    requires forall a :: a in CallLeaves(c) ==> n <= a < |h| && (h[a].res.Some? ==> h[a].res.value < n)
    ensures SelfFree(h, c)
  {
  }

  lemma {:induction false} DoubleAcross(h: Heap, h': Heap, calls: seq<Call>, dups: seq<Call>)
    requires Ok(h, calls) && AcrossCalls(h, calls) && Duplicated(h, h', ProgLeaves(calls))
    requires ProgLeaves(dups) == From(|h|, |ProgLeaves(calls)|)
    ensures AcrossCalls(h', calls + dups)
  {
    var l, all := ProgLeaves(calls), calls + dups;
    DuplicatesAreTwins(h, h', l);
    forall i | 0 <= i < |all| ensures SelfFree(h', all[i]) {
      if i < |calls| {
        assert SelfFree(h, calls[i]);
        CallBelow(h, calls, i);
        SelfFreeSame(h, h', calls[i]);
      } else {
        forall a | a in CallLeaves(all[i]) ensures |h| <= a < |h'| && (h'[a].res.Some? ==> h'[a].res.value < |h|) {
          CallLeavesIn(dups, i - |calls|, a);
          FromHas(|h|, |l|, a);
          assert IsDuplicate(h, h', l[a - |h|], |h| + (a - |h|));
          assert l[a - |h|] in Members(l);
        }
        NewIsSelfFree(h', all[i], |h|);
      }
    }
  }

  lemma {:induction false} CallBelow(h: Heap, calls: seq<Call>, i: nat)
    requires i < |calls| && Below(ProgLeaves(calls), |h|)
    ensures Below(CallLeaves(calls[i]), |h|)
  {
    var m := CallLeaves(calls[i]);
    forall j | 0 <= j < |m| ensures m[j] < |h| { CallLeavesIn(calls, i, m[j]); }
  }

  // ----- duplicating single calls -----

  /** ret holds the calls before rest and some duplicates d of calls. */
  ghost predicate Building(h: Heap, l: seq<nat>, o: nat, rest: seq<Call>, ret: seq<Call>, d: set<nat>) {
    && Below(l, |h|) && Distinct(l) && o <= |l| && l[o..] == ProgLeaves(rest) && Backward(h, l)
    && Graph(h, Members(l) + d) && (forall x :: x in d ==> x !in l)
    && Below(ProgLeaves(ret), |h|) && Distinct(ProgLeaves(ret))
    && Members(ProgLeaves(ret)) == Members(l[..o]) + d
  }

  /** The next call: its leaves in l, and where its references go. */
  lemma {:induction false} NextRefers(h: Heap, l: seq<nat>, o: nat, rest: seq<Call>, ret: seq<Call>, d: set<nat>)
    requires Building(h, l, o, rest, ret, d) && |rest| > 0
    ensures var m := CallLeaves(rest[0]);
            && o + |m| <= |l| && l[o..o + |m|] == m && l[o + |m|..] == ProgLeaves(rest[1..]) && Below(m, |h|)
            && forall j: nat {:trigger m[j]} :: j < |m| && h[m[j]].res.Some? ==>
                 h[m[j]].res.value in l[..o] || h[m[j]].res.value in m[..j]
  {
    var m := CallLeaves(rest[0]);
    assert l[o..] == m + ProgLeaves(rest[1..]);
    assert l[o..o + |m|] == l[o..][..|m|] == m;
    assert l[o + |m|..] == l[o..][|m|..];
    forall j | 0 <= j < |m| ensures m[j] == l[o + j] < |h| { assert l[o..][j] == m[j]; }
    forall j: nat {:trigger m[j]} | j < |m| && h[m[j]].res.Some?
      ensures h[m[j]].res.value in l[..o] || h[m[j]].res.value in m[..j]
    {
      assert RefersBack(h, l, o + j);
      assert l[..o + j] == l[..o] + m[..j];
    }
  }

  lemma {:induction false} OneCall(c: Call)
    ensures ProgLeaves([c]) == CallLeaves(c)
  {
    assert [c][1..] == [];
  }

  lemma {:induction false} LeavesSnoc(ret: seq<Call>, c: Call)
    ensures ProgLeaves(ret + [c]) == ProgLeaves(ret) + CallLeaves(c)
  {
    LeavesConcat(ret, [c]);
    OneCall(c);
  }

  /** The call itself keeps the order of references. */
  lemma {:induction false} AppendOriginal(h: Heap, l: seq<nat>, o: nat, rest: seq<Call>, ret: seq<Call>, d: set<nat>)
    requires Building(h, l, o, rest, ret, d) && |rest| > 0
    ensures o + |CallLeaves(rest[0])| <= |l|
    ensures Building(h, l, o + |CallLeaves(rest[0])|, rest[1..], ret + [rest[0]], d)
    ensures Backward(h, ProgLeaves(ret + [rest[0]])) <==> Backward(h, ProgLeaves(ret))
  {
    var c := rest[0];
    var m, r := CallLeaves(c), ProgLeaves(ret);
    NextRefers(h, l, o, rest, ret, d);
    LeavesSnoc(ret, c);
    AppendIds(l, o, m, r, d);
    forall j: nat {:trigger m[j]} | j < |m| ensures RefersTo(h, m[j], r + m[..j]) {
      if h[m[j]].res.Some? && h[m[j]].res.value in l[..o] {
        assert h[m[j]].res.value in Members(l[..o]) && h[m[j]].res.value in Members(r);
      }
    }
    BackwardConcat(h, r, m);
  }

  lemma {:induction false} AppendIds(l: seq<nat>, o: nat, m: seq<nat>, r: seq<nat>, d: set<nat>)
    requires Distinct(l) && o + |m| <= |l| && l[o..o + |m|] == m && Distinct(r)
    requires Members(r) == Members(l[..o]) + d && forall x :: x in d ==> x !in l
    ensures Distinct(r + m) && Members(r + m) == Members(l[..o + |m|]) + d
  {
    assert l[..o + |m|] == l[..o] + m;
    forall i, j | 0 <= i < |r| && 0 <= j < |m| ensures r[i] != m[j] {
      assert r[i] in Members(r) && m[j] == l[o + j];
      if r[i] in l[..o] {
        var k :| 0 <= k < o && l[..o][k] == r[i];
        assert l[k] == r[i];
      }
    }
    forall i, j | 0 <= i < j < |m| ensures m[i] != m[j] { assert m[i] == l[o + i] && m[j] == l[o + j]; }
  }

  lemma {:induction false} AppendDuplicate(h: Heap, h': Heap, l: seq<nat>, o: nat, rest: seq<Call>, ret: seq<Call>,
                                           d: set<nat>, c: Call)
    requires Building(h, l, o, rest, ret, d) && |rest| > 0
    requires Below(CallLeaves(rest[0]), |h|) && Duplicated(h, h', CallLeaves(rest[0]))
    requires CallLeaves(c) == From(|h|, |CallLeaves(rest[0])|)
    ensures Building(h', l, o, rest, ret + [c], d + Members(From(|h|, |CallLeaves(rest[0])|)))
    ensures Used(h', Members(l) + (d + Members(From(|h|, |CallLeaves(rest[0])|)))) == Used(h, Members(l) + d)
  {
    var m, r, k := CallLeaves(rest[0]), ProgLeaves(ret), |CallLeaves(rest[0])|;
    var new_ := From(|h|, k);
    NextRefers(h, l, o, rest, ret, d);
    LeavesSnoc(ret, c);
    assert forall j :: 0 <= j < k ==> m[j] == l[o + j];
    assert Members(m) <= Members(l) + d;
    DuplicateGraph(h, h', Members(l) + d, m);
    assert (Members(l) + d) + Members(new_) == Members(l) + (d + Members(new_));
    DistinctJoin(r, |h|, k);
    DuplicatesAreTwins(h, h', m);
    BackwardSame(h, h', l);
    FromIds(|h|, k);
  }

  /** The duplicate, which stands in front of the call, keeps the order exactly if the call does not refer to itself. */
  lemma {:induction false} DuplicateBackward(h: Heap, h': Heap, l: seq<nat>, o: nat, rest: seq<Call>, ret: seq<Call>,
                                             d: set<nat>, c: Call)
    requires Building(h, l, o, rest, ret, d) && |rest| > 0
    requires Below(CallLeaves(rest[0]), |h|) && Duplicated(h, h', CallLeaves(rest[0]))
    requires CallLeaves(c) == From(|h|, |CallLeaves(rest[0])|) && Below(ProgLeaves(ret + [c]), |h'|)
    ensures Backward(h', ProgLeaves(ret + [c])) <==> Backward(h, ProgLeaves(ret)) && SelfFree(h, rest[0])
  {
    var m, r := CallLeaves(rest[0]), ProgLeaves(ret);
    NextRefers(h, l, o, rest, ret, d);
    LeavesSnoc(ret, c);
    DuplicatesAreTwins(h, h', m);
    BackwardSame(h, h', r);
    BackwardConcat(h', r, From(|h|, |m|));
    SelfFreeAt(h, rest[0], m);
    TwinsOutsideIff(h, h', l, o, m, r, d, From(|h|, |m|));
  }

  lemma {:induction false} TwinsOutsideIff(h: Heap, h': Heap, l: seq<nat>, o: nat, m: seq<nat>, r: seq<nat>,
                                           d: set<nat>, b: seq<nat>)
    requires Below(l, |h|) && Distinct(l) && o + |m| <= |l| && l[o..o + |m|] == m && Below(m, |h|)
             && Duplicated(h, h', m)
    requires Members(r) == Members(l[..o]) + d && (forall y :: y in d ==> y !in l) && b == From(|h|, |m|)
    requires forall j: nat {:trigger m[j]} :: j < |m| && h[m[j]].res.Some? ==>
               h[m[j]].res.value in l[..o] || h[m[j]].res.value in m[..j]
    ensures (forall j: nat {:trigger b[j]} :: j < |b| ==> RefersTo(h', b[j], r + b[..j])) <==>
            (forall j :: 0 <= j < |m| && h[m[j]].res.Some? ==> h[m[j]].res.value !in m)
  {
    forall j: nat | j < |m| ensures RefersTo(h', b[j], r + b[..j]) <==>
        (h[m[j]].res.Some? ==> h[m[j]].res.value !in m) {
      assert IsDuplicate(h, h', m[j], |h| + j);
      if h[m[j]].res.Some? {
        assert h[m[j]].res.value in m[..j] ==> h[m[j]].res.value in m;
        OutsideIff(h, l, o, m, r, d, h[m[j]].res.value, b[..j]);
      }
    }
    if forall j :: 0 <= j < |m| && h[m[j]].res.Some? ==> h[m[j]].res.value !in m {
      forall j: nat {:trigger b[j]} | j < |b| ensures RefersTo(h', b[j], r + b[..j]) { assert m[j] == m[j]; }
    }
    if forall j: nat {:trigger b[j]} :: j < |b| ==> RefersTo(h', b[j], r + b[..j]) {
      forall j | 0 <= j < |m| && h[m[j]].res.Some? ensures h[m[j]].res.value !in m {
        assert RefersTo(h', b[j], r + b[..j]);
      }
    }
  }

  lemma {:induction false} SelfFreeAt(h: Heap, c: Call, m: seq<nat>)
    requires m == CallLeaves(c) && Below(m, |h|)
    ensures SelfFree(h, c) <==> forall j :: 0 <= j < |m| && h[m[j]].res.Some? ==> h[m[j]].res.value !in m
  {
    if forall j :: 0 <= j < |m| && h[m[j]].res.Some? ==> h[m[j]].res.value !in m {
      forall a | a in m && a < |h| && h[a].res.Some? ensures h[a].res.value !in m {
        var j :| 0 <= j < |m| && m[j] == a;
      }
    }
  }

  /** A reference of the next call is among what ret holds exactly if it is not to the call itself. */
  lemma {:induction false} OutsideIff(h: Heap, l: seq<nat>, o: nat, m: seq<nat>, r: seq<nat>, d: set<nat>, x: nat,
                                      fresh_: seq<nat>)
    requires Distinct(l) && o + |m| <= |l| && l[o..o + |m|] == m && Below(l, |h|) && Members(r) == Members(l[..o]) + d
    requires (forall y :: y in d ==> y !in l) && (x in l[..o] || x in m) && forall y :: y in fresh_ ==> y >= |h|
    ensures x in r + fresh_ <==> x !in m
  {
    assert forall j :: 0 <= j < |m| ==> m[j] == l[o + j];
    if x in l[..o] {
      var k :| 0 <= k < o && l[..o][k] == x;
      assert l[k] == x && x in Members(l[..o]) && x in Members(r);
    } else {
      var j :| 0 <= j < |m| && m[j] == x;
      assert l[o + j] == x && x in l;
      assert x in r <==> x in Members(r);
    }
  }

  /** The duplicated positions below i. */
  function Chosen(dup: set<nat>, i: nat): set<nat> { set x | x in dup && x < i }

  lemma {:induction false} ChosenNext(dup: set<nat>, i: nat)
    ensures |Chosen(dup, i + 1)| == |Chosen(dup, i)| + if i in dup then 1 else 0
  {
    if i in dup {
      assert Chosen(dup, i + 1) == Chosen(dup, i) + {i};
    } else {
      assert Chosen(dup, i + 1) == Chosen(dup, i);
    }
  }

  /** How many calls DupCallCollide duplicates in a program of n calls. */
  function Inserted(n: nat): int {
    var third := if n / 3 > 1 then n / 3 else 1;
    var few := if third < MAX_ASYNC then third else MAX_ASYNC;
    if few < MAX_CALLS - n then few else MAX_CALLS - n
  }

  /** Call d is an asynchronous duplicate of c, with resource objects of its own behind the first n. */
  ghost predicate IsTwin(h: Heap, c: Call, d: Call, n: nat) {
    exists m: nat :: m >= n && d == Marked(RelabelCall(c, m), true) && Twins(h, CallLeaves(c), m)
  }

  /** ret holds the first i calls of p in order, each chosen one behind its duplicate. */
  ghost predicate Interleaved(h: Heap, p: seq<Call>, dup: set<nat>, i: nat, ret: seq<Call>, n: nat)
    requires i <= |p|
  {
    if i == 0 then ret == []
    else
      && |ret| > 0 && ret[|ret| - 1] == p[i - 1]
      && if i - 1 !in dup then Interleaved(h, p, dup, i - 1, ret[..|ret| - 1], n)
         else |ret| > 1 && IsTwin(h, p[i - 1], ret[|ret| - 2], n) && Interleaved(h, p, dup, i - 1, ret[..|ret| - 2], n)
  }

  lemma {:induction false} InterleavedStays(h: Heap, h': Heap, p: seq<Call>, dup: set<nat>, i: nat, ret: seq<Call>,
                                            n: nat)
    requires i <= |p| && Interleaved(h, p, dup, i, ret, n) && Grows(h, h')
    ensures Interleaved(h', p, dup, i, ret, n)
    decreases i
  {
    if i > 0 {
      if i - 1 in dup {
        var c, d := p[i - 1], ret[|ret| - 2];
        var m: nat :| m >= n && d == Marked(RelabelCall(c, m), true) && Twins(h, CallLeaves(c), m);
        TwinsStay(h, h', CallLeaves(c), m);
        InterleavedStays(h, h', p, dup, i - 1, ret[..|ret| - 2], n);
      } else {
        InterleavedStays(h, h', p, dup, i - 1, ret[..|ret| - 1], n);
      }
    }
  }

  lemma {:induction false} InterleavedNext(h: Heap, p: seq<Call>, dup: set<nat>, i: nat, ret: seq<Call>,
                                           ret': seq<Call>, n: nat)
    requires i < |p| && Interleaved(h, p, dup, i, ret, n)
    requires if i in dup then |ret'| == |ret| + 1 && ret'[..|ret|] == ret && IsTwin(h, p[i], ret'[|ret|], n)
             else ret' == ret
    ensures Interleaved(h, p, dup, i + 1, ret' + [p[i]], n)
  {
    var all := ret' + [p[i]];
    assert all[..|all| - 1] == ret';
    if i in dup { assert all[..|all| - 2] == ret'[..|ret|]; }
  }

  /** Call j stands behind the calls before it and the duplicates up to it, its own directly in front of it. */
  lemma {:induction false} InterleavedAt(h: Heap, p: seq<Call>, dup: set<nat>, i: nat, ret: seq<Call>, n: nat, j: nat)
    requires j < i <= |p| && Interleaved(h, p, dup, i, ret, n)
    ensures |ret| == i + |Chosen(dup, i)|
    ensures var at := j + |Chosen(dup, j + 1)|;
            && at < |ret| && ret[at] == p[j]
            && (j in dup ==> at > 0 && IsTwin(h, p[j], ret[at - 1], n) && ret[at - 1].async)
    decreases i
  {
    ChosenNext(dup, i - 1);
    InterleavedSize(h, p, dup, i, ret, n);
    if j < i - 1 {
      var rest := if i - 1 in dup then ret[..|ret| - 2] else ret[..|ret| - 1];
      InterleavedAt(h, p, dup, i - 1, rest, n, j);
    }
  }

  lemma {:induction false} InterleavedSize(h: Heap, p: seq<Call>, dup: set<nat>, i: nat, ret: seq<Call>, n: nat)
    requires i <= |p| && Interleaved(h, p, dup, i, ret, n)
    ensures |ret| == i + |Chosen(dup, i)|
    decreases i
  {
    if i == 0 {
      assert Chosen(dup, 0) == {};
    } else {
      ChosenNext(dup, i - 1);
      InterleavedSize(h, p, dup, i - 1, if i - 1 in dup then ret[..|ret| - 2] else ret[..|ret| - 1], n);
    }
  }

  /** A third of the calls is duplicated, but at least one, and never more than fit. */
  lemma {:induction false} InsertedIs(n: nat)
    requires 2 <= n < MAX_CALLS
    ensures 1 <= Inserted(n) <= MAX_ASYNC && n + Inserted(n) <= MAX_CALLS
    ensures n <= 30 ==> Inserted(n) == (if n < 6 then 1 else n / 3)
    ensures n >= 30 ==> n + Inserted(n) == MAX_CALLS
  {
  }

  /** A duplicate of the next call; objects of h0, which nobody here refers to, stay as they are. */
  method AddDuplicate(w: Cloner, c: Call, ret: seq<Call>, ghost l: seq<nat>, ghost o: nat, ghost rest: seq<Call>,
                      ghost d: set<nat>, ghost h0: Heap)
    returns (ret': seq<Call>, ghost d': set<nat>)
    requires w.names == None && Building(w.heap, l, o, rest, ret, d) && |rest| > 0 && rest[0] == c
    requires h0 <= w.heap && forall x :: x in l ==> x >= |h0|
    modifies w
    ensures w.names == None && Building(w.heap, l, o, rest, ret', d') && |ret'| == |ret| + 1 && h0 <= w.heap
    ensures ret'[..|ret|] == ret && Grows(old(w.heap), w.heap) && IsTwin(w.heap, c, ret'[|ret|], old(|w.heap|))
    ensures Used(w.heap, Members(l) + d') == old(Used(w.heap, Members(l) + d))
    ensures Backward(w.heap, ProgLeaves(ret')) <==> old(Backward(w.heap, ProgLeaves(ret)) && SelfFree(w.heap, c))
  {
    ghost var h := w.heap;
    NextExists(h, l, o, rest, ret, d, |h0|);
    Duplicate(h, CallLeaves(c));
    NoNames(h, CallLeaves(c));
    RelabelCallLeaves(c, |h|);
    var e := w.CloneCall(c);
    PrefixOfDuplicated(h0, h, w.heap, CallLeaves(c));
    AppendDuplicate(h, w.heap, l, o, rest, ret, d, Marked(e.value, true));
    DuplicateBackward(h, w.heap, l, o, rest, ret, d, Marked(e.value, true));
    DuplicatesAreTwins(h, w.heap, CallLeaves(c));
    assert IsTwin(w.heap, c, Marked(e.value, true), |h|);
    return ret + [Marked(e.value, true)], d + Members(From(|h|, |CallLeaves(c)|));
  }

  /** The next call itself. */
  method AddOriginal(w: Cloner, c: Call, ret: seq<Call>, ghost l: seq<nat>, ghost o: nat, ghost rest: seq<Call>,
                     ghost d: set<nat>)
    returns (ret': seq<Call>, ghost o': nat, ghost rest': seq<Call>)
    requires Building(w.heap, l, o, rest, ret, d) && |rest| > 0 && rest[0] == c
    ensures Building(w.heap, l, o', rest', ret', d) && ret' == ret + [c] && rest' == rest[1..]
    ensures Backward(w.heap, ProgLeaves(ret')) <==> Backward(w.heap, ProgLeaves(ret))
  {
    AppendOriginal(w.heap, l, o, rest, ret, d);
    return ret + [c], o + |CallLeaves(rest[0])|, rest[1..];
  }

  /** None of the chosen calls among the first i refers to itself. */
  ghost predicate Clean(h: Heap, calls: seq<Call>, dup: set<nat>, i: nat)
    requires i <= |calls|
  {
    forall j :: 0 <= j < i && j in dup ==> SelfFree(h, calls[j])
  }

  /** The first i calls of p are done: ret holds them, and the others are still to come. */
  ghost predicate Halfway(p: Collided, dup: set<nat>, i: nat, h: Heap, ret: seq<Call>, l: seq<nat>, o: nat, d: set<nat>,
                          h0: Heap) {
    && i <= |p.calls| && l == ProgLeaves(p.calls) && Building(h, l, o, p.calls[i..], ret, d)
    && Used(h, Members(l) + d) == Used(p.heap, Members(l)) && |ret| == i + |Chosen(dup, i)|
    && Grows(p.heap, h) && Interleaved(h, p.calls, dup, i, ret, |p.heap|)
    && (Backward(h, ProgLeaves(ret)) <==> Clean(p.heap, p.calls, dup, i))
    && h0 <= h && (forall x :: x in l ==> x >= |h0|) && Below(l, |p.heap|)
  }

  /** The same, to be looked into only where that is asked for. */
  ghost predicate InBetween(p: Collided, dup: set<nat>, i: nat, h: Heap, ret: seq<Call>, l: seq<nat>, o: nat,
                            d: set<nat>, h0: Heap) {
    forall u: bool {:trigger Open(u)} :: Open(u) ==> Halfway(p, dup, i, h, ret, l, o, d, h0)
  }

  method AddNext(w: Cloner, p: Collided, dup: set<nat>, i: nat, ret: seq<Call>,
                 ghost l: seq<nat>, ghost o: nat, ghost d: set<nat>, ghost h0: Heap)
    returns (ret': seq<Call>, ghost o': nat, ghost d': set<nat>)
    requires w.names == None && i < |p.calls| && InBetween(p, dup, i, w.heap, ret, l, o, d, h0)
    modifies w
    ensures w.names == None && InBetween(p, dup, i + 1, w.heap, ret', l, o', d', h0)
  {
    assert Open(true);
    ret', o', d' := AddCall(w, p, dup, i, ret, l, o, d, h0);
  }

  lemma {:induction false} CleanNext(p: Collided, dup: set<nat>, i: nat, h: Heap)
    requires i < |p.calls| && Below(ProgLeaves(p.calls), |p.heap|) && Grows(p.heap, h)
    ensures Clean(p.heap, p.calls, dup, i + 1) <==>
            Clean(p.heap, p.calls, dup, i) && (i in dup ==> SelfFree(h, p.calls[i]))
  {
    CallBelow(p.heap, p.calls, i);
    SelfFreeSame(p.heap, h, p.calls[i]);
  }

  /** One turn of the loop of DupCallCollide. */
  method AddCall(w: Cloner, p: Collided, dup: set<nat>, i: nat, ret: seq<Call>,
                 ghost l: seq<nat>, ghost o: nat, ghost d: set<nat>, ghost h0: Heap)
    returns (ret': seq<Call>, ghost o': nat, ghost d': set<nat>)
    requires w.names == None && i < |p.calls| && Halfway(p, dup, i, w.heap, ret, l, o, d, h0)
    modifies w
    ensures w.names == None && Halfway(p, dup, i + 1, w.heap, ret', l, o', d', h0)
  {
    var c := p.calls[i];
    ghost var h, rest := w.heap, p.calls[i..];
    assert rest[0] == c && rest[1..] == p.calls[i + 1..];
    ret', d' := ret, d;
    CleanNext(p, dup, i, h);
    if i in dup {
      ret', d' := AddDuplicate(w, c, ret, l, o, rest, d, h0);
      TwinIsBehind(w.heap, c, ret'[|ret|], |p.heap|, |h|);
      InterleavedStays(h, w.heap, p.calls, dup, i, ret, |p.heap|);
    }
    InterleavedNext(w.heap, p.calls, dup, i, ret, ret', |p.heap|);
    ChosenNext(dup, i);
    ret', o', rest := AddOriginal(w, c, ret', l, o, rest, d');
  }

  /**
   r is p with each chosen call behind its duplicate: resources and uses are in order, nobody uses a duplicate,
   the same indices are needed, and references stay backward exactly if no chosen call refers to itself.
   */
  ghost predicate Woven(p: Collided, dup: set<nat>, h0: Heap, r: Collided) {
    && Sound(p.heap, p.calls) && Sound(r.heap, r.calls) && h0 <= r.heap && Grows(p.heap, r.heap)
    && |r.calls| == |p.calls| + |Chosen(dup, |p.calls|)|
    && Interleaved(r.heap, p.calls, dup, |p.calls|, r.calls, |p.heap|)
    && (Ok(r.heap, r.calls) <==> Clean(p.heap, p.calls, dup, |p.calls|))
    && (forall a :: a in ProgLeaves(r.calls) && a >= |p.heap| ==> r.heap[a].uses == {})
    && Indices(r.heap, ProgLeaves(r.calls)) == Indices(p.heap, ProgLeaves(p.calls))
    && (AcrossCalls(p.heap, p.calls) ==> AcrossCalls(r.heap, r.calls))
  }

  /** Duplicates the chosen calls of a program, each in front of its original. */
  method Interleave(p: Collided, dup: set<nat>, ghost h0: Heap) returns (r: Collided)
    requires Ok(p.heap, p.calls) && h0 <= p.heap && forall x :: x in ProgLeaves(p.calls) ==> x >= |h0|
    ensures Woven(p, dup, h0, r)
  {
    var w := new Cloner(p.heap, None);
    HalfwayStart(p, dup, h0);
    var ret: seq<Call>;
    ghost var o: nat, d: set<nat>;
    ret, o, d := Weave(w, p, dup, ProgLeaves(p.calls), h0);
    HalfwayEnd(p, dup, w.heap, ret, ProgLeaves(p.calls), o, d, h0);
    return Collided(w.heap, ret);
  }

  /** The loop of DupCallCollide. */
  method Weave(w: Cloner, p: Collided, dup: set<nat>, ghost l: seq<nat>, ghost h0: Heap)
    returns (ret: seq<Call>, ghost o: nat, ghost d: set<nat>)
    requires w.names == None && InBetween(p, dup, 0, w.heap, [], l, 0, {}, h0)
    modifies w
    ensures InBetween(p, dup, |p.calls|, w.heap, ret, l, o, d, h0)
  {
    ret, o, d := [], 0, {};
    var i := 0;
    while i != |p.calls|
      invariant 0 <= i <= |p.calls| && w.names == None && InBetween(p, dup, i, w.heap, ret, l, o, d, h0)
      decreases |p.calls| - i
    {
      ret, o, d := AddNext(w, p, dup, i, ret, l, o, d, h0);
      i := i + 1;
    }
  }

  lemma {:induction false} HalfwayStart(p: Collided, dup: set<nat>, h0: Heap)
    requires Ok(p.heap, p.calls) && h0 <= p.heap && forall x :: x in ProgLeaves(p.calls) ==> x >= |h0|
    ensures InBetween(p, dup, 0, p.heap, [], ProgLeaves(p.calls), 0, {}, h0)
  {
    StartBuilding(p.heap, p.calls);
    assert Chosen(dup, 0) == {} && p.calls[0..] == p.calls;
  }

  lemma {:induction false} HalfwayEnd(p: Collided, dup: set<nat>, h: Heap, ret: seq<Call>, l: seq<nat>, o: nat,
                                      d: set<nat>, h0: Heap)
    requires Ok(p.heap, p.calls) && InBetween(p, dup, |p.calls|, h, ret, l, o, d, h0)
    ensures Woven(p, dup, h0, Collided(h, ret))
  {
    assert Open(true);
    EndBuilding(h, l, o, p.calls[|p.calls|..], ret, d);
    SameUsedSameIndices(p.heap, l, h, ProgLeaves(ret));
    UnusedAbove(p.heap, l, h, ProgLeaves(ret));
    if AcrossCalls(p.heap, p.calls) { InterleavedAcross(p, h, dup, |p.calls|, ret); }
  }

  lemma {:induction false} InterleavedAcross(p: Collided, h: Heap, dup: set<nat>, i: nat, ret: seq<Call>)
    requires Ok(p.heap, p.calls) && AcrossCalls(p.heap, p.calls) && Grows(p.heap, h)
    requires i <= |p.calls| && Interleaved(h, p.calls, dup, i, ret, |p.heap|)
    ensures AcrossCalls(h, ret)
    decreases i
  {
    if i > 0 {
      var c, k := p.calls[i - 1], |ret| - 1;
      CallBelow(p.heap, p.calls, i - 1);
      assert SelfFree(p.heap, c);
      SelfFreeSame(p.heap, h, c);
      if i - 1 in dup {
        InterleavedAcross(p, h, dup, i - 1, ret[..k - 1]);
        TwinSelfFree(p, h, i - 1, ret[k - 1]);
        assert ret[..k][..k - 1] == ret[..k - 1];
        AcrossSnoc(h, ret[..k]);
      } else {
        InterleavedAcross(p, h, dup, i - 1, ret[..k]);
      }
      AcrossSnoc(h, ret);
    }
  }

  lemma {:induction false} AcrossSnoc(h: Heap, ret: seq<Call>)
    requires |ret| > 0 && AcrossCalls(h, ret[..|ret| - 1]) && SelfFree(h, ret[|ret| - 1])
    ensures AcrossCalls(h, ret)
  {
    forall j | 0 <= j < |ret| ensures SelfFree(h, ret[j]) {
      if j < |ret| - 1 { assert ret[..|ret| - 1][j] == ret[j]; }
    }
  }

  lemma {:induction false} TwinSelfFree(p: Collided, h: Heap, i: nat, d: Call)
    requires Ok(p.heap, p.calls) && Grows(p.heap, h) && i < |p.calls| && IsTwin(h, p.calls[i], d, |p.heap|)
    ensures SelfFree(h, d)
  {
    var c := p.calls[i];
    var m: nat :| m >= |p.heap| && d == Marked(RelabelCall(c, m), true) && Twins(h, CallLeaves(c), m);
    RelabelCallLeaves(c, m);
    CallBelow(p.heap, p.calls, i);
    var n := |CallLeaves(c)|;
    forall a | a in CallLeaves(d) ensures m <= a < |h| && (h[a].res.Some? ==> h[a].res.value < m) {
      FromHas(m, n, a);
      assert Twin(h, CallLeaves(c), m, a - m);
      var x := CallLeaves(c)[a - m];
      CallLeavesIn(p.calls, i, x);
      assert x in Members(ProgLeaves(p.calls));
      assert Linked(p.heap, Members(ProgLeaves(p.calls)), x);
    }
    NewIsSelfFree(h, d, m);
  }

  lemma {:induction false} TwinIsBehind(h: Heap, c: Call, d: Call, n: nat, k: nat)
    requires n <= k && IsTwin(h, c, d, k)
    ensures IsTwin(h, c, d, n)
  {
  }

  lemma {:induction false} UnusedAbove(h: Heap, l: seq<nat>, h': Heap, r: seq<nat>)
    requires Below(r, |h'|) && Used(h', Members(r)) == Used(h, Members(l))
    ensures forall a :: a in r && a >= |h| ==> h'[a].uses == {}
  {
    forall a | a in r && a >= |h| ensures h'[a].uses == {} {
      assert a in Members(r) && a !in Used(h, Members(l));
    }
  }

  lemma {:induction false} StartBuilding(h: Heap, calls: seq<Call>)
    requires Ok(h, calls)
    ensures Building(h, ProgLeaves(calls), 0, calls, [], {})
            && Members(ProgLeaves(calls)) + {} == Members(ProgLeaves(calls))
  {
    assert ProgLeaves(calls)[0..] == ProgLeaves(calls) && ProgLeaves(calls)[..0] == [];
  }

  lemma {:induction false} NextExists(h: Heap, l: seq<nat>, o: nat, rest: seq<Call>, ret: seq<Call>, d: set<nat>,
                                      n: nat)
    requires Building(h, l, o, rest, ret, d) && |rest| > 0 && forall x :: x in l ==> x >= n
    ensures var m := CallLeaves(rest[0]);
            && Below(m, |h|) && RefsExist(h, m)
            && forall i :: 0 <= i < |m| && h[m[i]].res.Some? ==> h[m[i]].res.value >= n
  {
    var m := CallLeaves(rest[0]);
    NextRefers(h, l, o, rest, ret, d);
    forall j | 0 <= j < |m| && h[m[j]].res.Some? ensures n <= h[m[j]].res.value < |h| {
      assert l[o + j] == m[j];
      assert RefersBack(h, l, o + j);
      assert h[m[j]].res.value in l;
    }
  }

  lemma {:induction false} EndBuilding(h: Heap, l: seq<nat>, o: nat, rest: seq<Call>, ret: seq<Call>, d: set<nat>)
    requires Building(h, l, o, rest, ret, d) && rest == []
    ensures Sound(h, ret) && Members(ProgLeaves(ret)) == Members(l) + d
  {
    assert l[o..] == [];
    assert l[..o] == l;
  }

  /** A copy of the program in which each chosen call stands behind a duplicate. */
  ghost predicate SomeTwice(heap: Heap, calls: seq<Call>, dup: set<nat>, r: Collided)
    requires Below(ProgLeaves(calls), |heap|)
  {
    var p := RelabelProg(calls, |heap|);
    && |p| == |calls| && Mirrors(heap, ProgLeaves(calls), r.heap)
    && Interleaved(r.heap, p, dup, |p|, r.calls, |heap| + |ProgLeaves(calls)|)
  }

  lemma {:induction false} SomeAreTwice(heap: Heap, calls: seq<Call>, dup: set<nat>, p: Collided, q: Collided)
    requires Below(ProgLeaves(calls), |heap|) && |p.calls| == |calls| && |p.heap| == |heap| + |ProgLeaves(calls)|
    requires p.calls == RelabelProg(calls, |heap|) && Mirrors(heap, ProgLeaves(calls), p.heap) && Grows(p.heap, q.heap)
    requires Interleaved(q.heap, p.calls, dup, |p.calls|, q.calls, |p.heap|)
    ensures SomeTwice(heap, calls, dup, q)
  {
    MirrorsStay(heap, ProgLeaves(calls), p.heap, q.heap);
  }

  /** The calls that are duplicated are chosen. */
  method DupSome(heap: Heap, calls: seq<Call>, dup: set<nat>) returns (r: Collided)
    requires Ok(heap, calls) && forall x :: x in dup ==> x < |calls|
    ensures |r.calls| == |calls| + |dup| && heap <= r.heap
    ensures Sound(r.heap, r.calls) && (Ok(r.heap, r.calls) <==> Clean(heap, calls, dup, |calls|))
    ensures NobodyUses(r, |heap| + |ProgLeaves(calls)|)
    ensures Indices(r.heap, ProgLeaves(r.calls)) == Indices(heap, ProgLeaves(calls))
    ensures AcrossCalls(heap, calls) ==> Ok(r.heap, r.calls) && AcrossCalls(r.heap, r.calls)
    ensures SomeTwice(heap, calls, dup, r)
  {
    var p := CloneProg(heap, calls);
    r := Interleave(p, dup, heap);
    assert Chosen(dup, |calls|) == dup;
    SomeAreTwice(heap, calls, dup, p, r);
  }

  /** What DupCallCollide does: a program, an error, or a panic on a slice with a negative bound. */
  datatype DupOutcome = Made(value: Collided) | Error | Panic

  /** DupCallCollide; any choice of positions. */
  method DupCall(heap: Heap, calls: seq<Call>, dup: set<nat>) returns (r: DupOutcome)
    requires Ok(heap, calls)
    requires 2 <= |calls| < MAX_CALLS ==> |dup| == Inserted(|calls|) && forall x :: x in dup ==> x < |calls|
    ensures r.Error? <==> |calls| < 2 || |calls| == MAX_CALLS
    ensures r.Panic? <==> |calls| > MAX_CALLS
    ensures r.Made? ==>
              && |r.value.calls| == |calls| + Inserted(|calls|) <= MAX_CALLS && heap <= r.value.heap
              && Sound(r.value.heap, r.value.calls)
              && (Ok(r.value.heap, r.value.calls) <==> Clean(heap, calls, dup, |calls|))
              && NobodyUses(r.value, |heap| + |ProgLeaves(calls)|)
              && Indices(r.value.heap, ProgLeaves(r.value.calls)) == Indices(heap, ProgLeaves(calls))
    ensures r.Made? && AcrossCalls(heap, calls) ==> Ok(r.value.heap, r.value.calls)
                                                    && AcrossCalls(r.value.heap, r.value.calls)
    ensures r.Made? ==> SomeTwice(heap, calls, dup, r.value)
  {
    if |calls| < 2 { return Error; }
    if Inserted(|calls|) == 0 { return Error; }
    if Inserted(|calls|) < 0 { return Panic; }
    var p := DupSome(heap, calls, dup);
    return Made(p);
  }

  // ----- a duplicated call that refers to itself -----

  const SELF_HEAP: Heap := [Object(None, {1}, 0), Object(Some(0), {}, 0)]
  // The resource is in memory, where a call can leave it, and is referred to by the next argument.
  const SELF_ARGS: seq<Arg> := [Pointer(0, Some(Result(0))), Result(1)]
  const SELF_CALLS: seq<Call> := [Call(0, None, SELF_ARGS, false), Call(1, None, [], false)]

  lemma {:induction false} SelfIsOk()
    ensures Ok(SELF_HEAP, SELF_CALLS) && !SelfFree(SELF_HEAP, SELF_CALLS[0])
  {
    var args := SELF_ARGS;
    assert args[1..] == [Result(1)] && args[1..][1..] == [];
    assert Leaves(args[0]) == Leaves(Result(0)) == [0];
    assert LeavesAll(args[1..]) == [1] + LeavesAll([]) && LeavesAll(args) == [0] + LeavesAll(args[1..]);
    var none: seq<Arg> := [];
    assert LeavesAll(none) == [] && SELF_CALLS[1..] == [SELF_CALLS[1]] && SELF_CALLS[1..][1..] == [];
    assert ProgLeaves(SELF_CALLS[1..]) == [] + ProgLeaves(SELF_CALLS[1..][1..]);
    assert CallLeaves(SELF_CALLS[0]) == [0, 1];
    assert ProgLeaves(SELF_CALLS) == [0, 1];
    assert 1 in CallLeaves(SELF_CALLS[0]) && 0 in CallLeaves(SELF_CALLS[0]);
    assert RefersBack(SELF_HEAP, [0, 1], 0) && RefersBack(SELF_HEAP, [0, 1], 1);
    var s := Members([0, 1]);
    assert Users(SELF_HEAP, s, 0) == {1} && Users(SELF_HEAP, s, 1) == {};
  }

  /** A well-formed program, one of whose references points forward after DupCallCollide. */
  method ForwardReference() returns (r: DupOutcome)
    ensures r.Made? && Sound(r.value.heap, r.value.calls) && !Backward(r.value.heap, ProgLeaves(r.value.calls))
  {
    SelfIsOk();
    r := DupCall(SELF_HEAP, SELF_CALLS, {0});
  }
}
