/** The choice of asynchronous calls (AssignRandomAsync in prog/collide.go). */
module Async {
  import opened Basics

  const MAX_ASYNC: nat := 24

  datatype Dir = In | Out | InOut

  /** A resource argument: its identity, direction and the resource it refers to. */
  datatype Res = Res(id: nat, dir: Dir, ref: Option<nat>)

  /** A call, as far as resources are concerned: the resource arguments in visiting order. */
  datatype Call = Call(results: seq<Res>, async: bool)

  function Produces(c: Call): set<nat> {
    set r | r in c.results && r.dir != In :: r.id
  }

  function Consumes(c: Call): set<nat> {
    set r | r in c.results && r.dir != Out && r.ref.Some? :: r.ref.value
  }

  /** Resources needed by call i and those behind it, up to and including the first synchronous one. */
  function NeededSoon(calls: seq<Call>, i: nat): set<nat>
    decreases |calls| - i
  {
    if i >= |calls| then {}
    else if calls[i].async then Consumes(calls[i]) + NeededSoon(calls, i + 1)
    else Consumes(calls[i])
  }

  lemma {:induction false} SoonOnly(calls: seq<Call>, i: nat, j: nat, r: nat)
    requires i <= j < |calls| && r in Consumes(calls[j]) && forall k :: i <= k < j ==> calls[k].async
    ensures r in NeededSoon(calls, i)
    decreases j - i
  {
    if i < j { SoonOnly(calls, i + 1, j, r); }
  }

  lemma {:induction false} SoonFrom(calls: seq<Call>, calls': seq<Call>, i: nat)
    requires |calls| == |calls'| && forall k :: i <= k < |calls| ==> calls[k] == calls'[k]
    ensures NeededSoon(calls, i) == NeededSoon(calls', i)
    decreases |calls| - i
  {
    if i < |calls| && calls[i].async { SoonFrom(calls, calls', i + 1); }
  }

  function Asyncs(calls: seq<Call>, i: nat): nat
    decreases |calls| - i
  {
    if i >= |calls| then 0 else (if calls[i].async then 1 else 0) + Asyncs(calls, i + 1)
  }

  lemma {:induction false} AsyncsFrom(calls: seq<Call>, calls': seq<Call>, i: nat)
    requires |calls| == |calls'| && forall k :: i <= k < |calls| ==> calls[k] == calls'[k]
    ensures Asyncs(calls, i) == Asyncs(calls', i)
    decreases |calls| - i
  {
    if i < |calls| { AsyncsFrom(calls, calls', i + 1); }
  }

  lemma {:induction false} NoAsyncs(calls: seq<Call>, i: nat, j: nat)
    requires i <= j <= |calls| && forall k :: i <= k < j ==> !calls[k].async
    ensures Asyncs(calls, i) == Asyncs(calls, j)
    decreases j - i
  {
    if i < j { NoAsyncs(calls, i + 1, j); }
  }

  /** A synchronous call stands between an asynchronous producer and every consumer. */
  ghost predicate Separated(calls: seq<Call>) {
    forall i, j, r {:trigger r in Produces(calls[i]), r in Consumes(calls[j])} ::
      0 <= i < j < |calls| && calls[i].async && r in Produces(calls[i]) && r in Consumes(calls[j]) ==>
      exists k :: i < k < j && !calls[k].async
  }

  /** From call i on, no asynchronous call produces what is needed soon. */
  ghost predicate Spaced(calls: seq<Call>, i: nat) {
    forall k :: i <= k < |calls| && calls[k].async ==> Produces(calls[k]) !! NeededSoon(calls, k + 1)
  }

  lemma {:induction false} SpacedSeparates(calls: seq<Call>)
    requires Spaced(calls, 0)
    ensures Separated(calls)
  {
    forall i, j, r {:trigger r in Produces(calls[i]), r in Consumes(calls[j])}
      | 0 <= i < j < |calls| && calls[i].async && r in Produces(calls[i]) && r in Consumes(calls[j])
      ensures exists k :: i < k < j && !calls[k].async
    {
      if forall k :: i < k < j ==> calls[k].async { SoonOnly(calls, i + 1, j, r); }
    }
  }

  /** The callback over the arguments of one call. */
  method Scan(c: Call, unassigned: set<nat>) returns (producesUnassigned: bool, consumes: set<nat>)
    ensures producesUnassigned <==> !(Produces(c) !! unassigned)
    ensures consumes == Consumes(c)
  {
    producesUnassigned, consumes := false, {};
    var i := 0;
    while i < |c.results|
      invariant 0 <= i <= |c.results|
      invariant var d := c.(results := c.results[..i]);
                (producesUnassigned <==> !(Produces(d) !! unassigned)) && consumes == Consumes(d)
    {
      var r := c.results[i];
      ScanStep(c, i);
      if r.dir != In && r.id in unassigned { producesUnassigned := true; }
      if r.dir != Out && r.ref.Some? { consumes := consumes + {r.ref.value}; }
      i := i + 1;
    }
    assert c.results[..i] == c.results;
  }

  lemma {:induction false} ScanStep(c: Call, i: nat)
    requires i < |c.results|
    ensures var r, d, d' := c.results[i], c.(results := c.results[..i]), c.(results := c.results[..i + 1]);
            && Produces(d') == Produces(d) + (if r.dir != In then {r.id} else {})
            && Consumes(d') == Consumes(d) + (if r.dir != Out && r.ref.Some? then {r.ref.value} else {})
  {
    var s, s' := c.results[..i], c.results[..i + 1];
    assert s' == s + [c.results[i]];
  }

  /** Call i may be asynchronous: it is not the last, room is left, and nothing it makes is needed soon. */
  ghost predicate Allowed(calls: seq<Call>, i: nat)
    requires i < |calls|
  {
    i + 1 < |calls| && Asyncs(calls, i + 1) < MAX_ASYNC && Produces(calls[i]) !! NeededSoon(calls, i + 1)
  }

  /** From call i on, exactly the allowed calls with heads up are asynchronous. */
  ghost predicate Assigned(calls: seq<Call>, coins: seq<bool>, i: nat) {
    |coins| == |calls| && forall k :: i <= k < |calls| ==> (calls[k].async <==> coins[k] && Allowed(calls, k))
  }

  /**
   AssignRandomAsync; one coin per call, heads with any outcome of the random choice but 0. Calls
   before from, which are not looked at because the limit is reached, stay as they are.
   */
  method AssignAsync(orig: seq<Call>, coins: seq<bool>) returns (calls: seq<Call>, ghost from: nat)
    requires |coins| == |orig|
    ensures |calls| == |orig| && forall i :: 0 <= i < |calls| ==> calls[i].results == orig[i].results
    ensures from <= |calls| && calls[..from] == orig[..from] && Assigned(calls, coins, from)
    ensures from > 0 ==> Asyncs(calls, from) == MAX_ASYNC
    ensures |calls| > 0 ==> !calls[|calls| - 1].async
    ensures NoneAsync(orig) ==> Assigned(calls, coins, 0) && Asyncs(calls, 0) <= MAX_ASYNC && Separated(calls)
  {
    calls := orig;
    var unassigned := {};
    var left := MAX_ASYNC;
    var i := |calls| - 1;
    while i >= 0 && left > 0
      invariant -1 <= i < |calls| == |orig|
      invariant forall k :: 0 <= k < |calls| ==> calls[k].results == orig[k].results
      invariant calls[..i + 1] == orig[..i + 1]
      invariant unassigned == NeededSoon(calls, i + 1)
      invariant 0 <= left <= MAX_ASYNC && Asyncs(calls, i + 1) == MAX_ASYNC - left
      invariant i < |calls| - 1 ==> !calls[|calls| - 1].async
      invariant i == |calls| - 1 ==> left == MAX_ASYNC
      invariant Spaced(calls, i + 1) && Assigned(calls, coins, i + 1)
    {
      var p, consumes := Scan(calls[i], unassigned);
      var async := !p && i + 1 != |calls| && coins[i];
      AssignStep(calls, i, async);
      AssignedStep(calls, coins, i, async);
      calls := calls[i := calls[i].(async := async)];
      if async {
        unassigned := unassigned + consumes;
        left := left - 1;
      } else {
        unassigned := consumes;
      }
      i := i - 1;
    }
    from := i + 1;
    if NoneAsync(orig) { RestIsSynchronous(orig, calls, coins, from); }
  }

  predicate NoneAsync(calls: seq<Call>) { forall i :: 0 <= i < |calls| ==> !calls[i].async }

  lemma {:induction false} RestIsSynchronous(orig: seq<Call>, calls: seq<Call>, coins: seq<bool>, from: nat)
    requires from <= |calls| == |orig| && NoneAsync(orig) && calls[..from] == orig[..from]
    requires Assigned(calls, coins, from) && Spaced(calls, from)
    requires Asyncs(calls, from) <= MAX_ASYNC && (from > 0 ==> Asyncs(calls, from) == MAX_ASYNC)
    ensures Assigned(calls, coins, 0) && Asyncs(calls, 0) <= MAX_ASYNC && Separated(calls)
  {
    forall k | 0 <= k < from ensures !calls[k].async { assert calls[..from][k] == orig[k]; }
    NoAsyncs(calls, 0, from);
    forall k | 0 <= k < from ensures !Allowed(calls, k) { NoAsyncs(calls, k + 1, from); }
    SpacedSeparates(calls);
  }

  lemma {:induction false} AssignedStep(calls: seq<Call>, coins: seq<bool>, i: nat, async: bool)
    requires i < |calls| && Assigned(calls, coins, i + 1)
    requires async <==> coins[i] && Allowed(calls, i)
    ensures Assigned(calls[i := calls[i].(async := async)], coins, i)
  {
    var after := calls[i := calls[i].(async := async)];
    forall k | i <= k < |after| ensures after[k].async <==> coins[k] && Allowed(after, k) {
      SoonFrom(calls, after, k + 1);
      AsyncsFrom(calls, after, k + 1);
      if k == i { assert Produces(after[k]) == Produces(calls[k]); }
    }
  }

  lemma {:induction false} AssignStep(calls: seq<Call>, i: nat, async: bool)
    requires i < |calls| && Spaced(calls, i + 1)
    requires async ==> Produces(calls[i]) !! NeededSoon(calls, i + 1)
    ensures var after := calls[i := calls[i].(async := async)];
            && Spaced(after, i)
            && NeededSoon(after, i) == Consumes(calls[i]) + (if async then NeededSoon(calls, i + 1) else {})
            && Asyncs(after, i) == Asyncs(calls, i + 1) + (if async then 1 else 0)
  {
    var after := calls[i := calls[i].(async := async)];
    SoonFrom(calls, after, i + 1);
    AsyncsFrom(calls, after, i + 1);
    forall k | i <= k < |after| && after[k].async ensures Produces(after[k]) !! NeededSoon(after, k + 1) {
      if k > i { SoonFrom(calls, after, k + 1); }
    }
  }
}
