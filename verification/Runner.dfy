/**
 The request runner (executor/executor_runner.h): a queue of test requests, subprocesses that are
 restarted when they fail, and the pool of process ids that the subprocesses share.
 */
module Runner {
  import opened Bits
  import opened Counting
  import opened Basics

  // ----- id masks -----

  /** ((~avoid) & mask) == 0 */
  predicate Covered(avoid: nat, mask: nat)
    decreases mask
  {
    mask == 0 || ((mask % 2 == 1 ==> avoid % 2 == 1) && Covered(avoid / 2, mask / 2))
  }

  lemma {:induction false} CoveredBit(avoid: nat, mask: nat, i: nat)
    requires Covered(avoid, mask) && Bit(mask, i)
    ensures Bit(avoid, i)
    decreases i
  {
    if mask == 0 {
      ZeroHasNoBits(i);
    } else if i > 0 {
      CoveredBit(avoid / 2, mask / 2, i - 1);
    }
  }

  lemma {:induction false} AllBitsCovered(avoid: nat, mask: nat)
    requires forall i: nat :: Bit(mask, i) ==> Bit(avoid, i)
    ensures Covered(avoid, mask)
    decreases mask
  {
    if mask > 0 {
      assert Bit(mask, 0) ==> Bit(avoid, 0);
      forall i: nat | Bit(mask / 2, i) ensures Bit(avoid / 2, i) {
        assert Bit(mask, i + 1);
      }
      AllBitsCovered(avoid / 2, mask / 2);
    }
  }

  // ----- process ids -----

  function InOrder(n: nat): seq<nat> { seq(n, i => i) }

  /** All ids issued and handed back since the start: the queue is first in, first out. */
  ghost predicate History(total: nat, issued: seq<nat>, returned: seq<nat>, ids: seq<nat>, held: set<nat>) {
    InOrder(total) + returned == issued + ids && |issued| == |returned| + |held|
  }

  /**
   With n ids in use, reallocation r hands back returned[r] and issues issued[n + r]: an id that is
   handed back is issued again exactly total - n reallocations later, at once if n == total.
   */
  lemma {:induction false} ReissuedAfter(total: nat, issued: seq<nat>, returned: seq<nat>, ids: seq<nat>,
                                         held: set<nat>, r: nat)
    requires History(total, issued, returned, ids, held) && |held| <= total
    requires r + (total - |held|) < |returned|
    ensures issued[|held| + (r + (total - |held|))] == returned[r]
  {
    var all := InOrder(total) + returned;
    assert all[total + r] == returned[r] == (issued + ids)[total + r];
  }

  lemma {:induction false} HistoryAlloc(total: nat, issued: seq<nat>, returned: seq<nat>, ids: seq<nat>, held: set<nat>)
    requires History(total, issued, returned, ids, held) && |ids| > 0 && ids[0] !in held
    ensures History(total, issued + [ids[0]], returned, ids[1..], held + {ids[0]})
  {
    assert issued + ids == (issued + [ids[0]]) + ids[1..];
  }

  lemma {:induction false} HistoryFree(total: nat, issued: seq<nat>, returned: seq<nat>, ids: seq<nat>, held: set<nat>,
                                       id: nat)
    requires History(total, issued, returned, ids, held) && id in held
    ensures History(total, issued, returned + [id], ids + [id], held - {id})
  {
    assert InOrder(total) + (returned + [id]) == (InOrder(total) + returned) + [id];
    assert issued + (ids + [id]) == (issued + ids) + [id];
  }

  /** Queue and held ids together are 0, ..., total - 1, each once; the mask shows the held ones. */
  ghost predicate PoolState(ids: seq<nat>, mask: nat, held: set<nat>, total: nat) {
    && Distinct(ids)
    && (forall i: nat :: i < total <==> i in ids || i in held)
    && (forall i :: i in ids ==> i !in held)
    && (forall i: nat :: Bit(mask, i) <==> i in held)
  }

  lemma {:induction false} PoolAlloc(ids: seq<nat>, mask: nat, held: set<nat>, total: nat)
    requires PoolState(ids, mask, held, total) && |ids| > 0
    ensures PoolState(ids[1..], WithBit(mask, ids[0], true), held + {ids[0]}, total)
  {
    forall i: nat ensures Bit(WithBit(mask, ids[0], true), i) <==> i in held + {ids[0]} {
      WithBitIs(mask, ids[0], true, i);
    }
    assert ids == [ids[0]] + ids[1..];
    forall i: nat ensures i < total <==> i in ids[1..] || i in held + {ids[0]} {
      assert i in ids <==> i == ids[0] || i in ids[1..];
    }
    forall i | i in ids[1..] ensures i != ids[0] {
      var j :| 0 <= j < |ids[1..]| && ids[1..][j] == i;
      assert ids[j + 1] == i;
    }
  }

  lemma {:induction false} PoolFree(ids: seq<nat>, mask: nat, held: set<nat>, total: nat, id: nat)
    requires PoolState(ids, mask, held, total) && id in held
    ensures PoolState(ids + [id], WithBit(mask, id, false), held - {id}, total)
  {
    forall i: nat ensures Bit(WithBit(mask, id, false), i) <==> i in held - {id} {
      WithBitIs(mask, id, false, i);
    }
    forall i: nat ensures i < total <==> i in ids + [id] || i in held - {id} {
    }
  }

  /** The pool queue always holds exactly the ids beyond those in use. */
  lemma {:induction false} QueueLength(ids: seq<nat>, mask: nat, held: set<nat>, total: nat)
    requires PoolState(ids, mask, held, total)
    ensures |ids| == total - |held|
  {
    DistinctSize(ids);
    assert Members(ids) !! held;
    RangeSize(Members(ids) + held, total);
  }

  class ProcIDPool {
    var ids: seq<nat>
    var mask: nat
    ghost var held: set<nat>
    ghost var issued: seq<nat>
    ghost var returned: seq<nat>
    ghost const total: nat

    ghost predicate Valid()
      reads this
    {
      PoolState(ids, mask, held, total) && History(total, issued, returned, ids, held)
    }

    constructor (procs: nat)
      ensures Valid() && held == {} && issued == returned == [] && total == (if procs > 10 then procs else 10)
              && |ids| == total
    {
      var n := if procs > 10 then procs else 10;
      ids, mask, held, total, issued, returned := InOrder(n), 0, {}, n, [], [];
      new;
      forall i: nat ensures !Bit(mask, i) { ZeroHasNoBits(i); }
      forall i: nat | i < total ensures i in ids { assert ids[i] == i; }
    }

    /** Alloc(): an id for a new process */
    method Alloc() returns (id: nat)
      requires Valid() && |ids| > 0
      modifies this
      ensures Valid() && old(ids) == [id] + ids
      ensures id !in old(held) && held == old(held) + {id}
      ensures issued == old(issued) + [id] && returned == old(returned)
    {
      id := ids[0];
      PoolAlloc(ids, mask, held, total);
      HistoryAlloc(total, issued, returned, ids, held);
      ids, mask, held, issued := ids[1..], WithBit(mask, id, true), held + {id}, issued + [id];
    }

    /** Alloc(old): hand back an id and take the next */
    method Realloc(back: nat) returns (id: nat)
      requires Valid() && back in held
      modifies this
      ensures Valid() && [id] + ids == old(ids) + [back]
      ensures id !in old(held) - {back} && held == old(held) - {back} + {id}
      ensures issued == old(issued) + [id] && returned == old(returned) + [back]
    {
      PoolFree(ids, mask, held, total, back);
      HistoryFree(total, issued, returned, ids, held, back);
      ids, mask, held, returned := ids + [back], WithBit(mask, back, false), held - {back}, returned + [back];
      id := Alloc();
    }
  }

  // ----- processes -----

  datatype Request = Request(id: nat, avoid: nat, kind: nat, env: nat, reset: bool, sandbox: int,
                             returnError: bool)

  datatype State = Started | Handshaking | Idle | Executing

  /** What processes share: the id pool, the number of handshakes under way, the connection. */
  class Hub {
    const pool: ProcIDPool
    var restarting: int
    var answered: seq<nat>

    constructor (procs: nat)
      ensures pool.Valid() && pool.held == {} && fresh(pool) && |pool.ids| >= procs
      ensures restarting == 0 && answered == []
    {
      pool := new ProcIDPool(procs);
      restarting, answered := 0, [];
    }
  }

  /** A process as the rest of the runner sees it. */
  datatype View = View(id: nat, state: State, pending: Option<Request>)

  /** A request is pending exactly while it is being handshaken or executed. */
  predicate Settled(v: View) {
    v.pending.Some? <==> v.state == Handshaking || v.state == Executing
  }

  function Pending(v: View): multiset<nat> { if v.pending.Some? then multiset{v.pending.value.id} else multiset{} }

  function Shaking(v: View): int { if v.state == Handshaking then 1 else 0 }

  /** What the environment does to a subprocess: whether it takes what is written, and how it exits. */
  datatype Pipe = Pipe(wrote: bool, failed: bool)

  /** What a round of the loop finds on a process: timeouts and pipes are up to the environment. */
  datatype Event = Event(timeout: bool, outputEof: bool, response: bool, responseEof: bool, pipe: Pipe)

  predicate Busy(s: State) { s == Handshaking || s == Executing }

  /** Nothing happened to the process. */
  predicate Quiet(v: View, e: Event) {
    !e.outputEof && !e.response && (e.timeout ==> !Busy(v.state))
  }

  /** The process replied in time. */
  predicate Replies(e: Event) { !e.timeout && !e.outputEof && e.response && !e.responseEof }

  /** The process is lost: it timed out, closed a pipe, or spoke without being asked. */
  predicate Breaks(v: View, e: Event) {
    || (e.timeout && Busy(v.state)) || e.outputEof
    || (e.response && (e.responseEof || !Busy(v.state)))
  }

  /**
   What a restart makes of process v. A request that was executed is answered, unless the subprocess
   failed and the request does not ask for errors. A request that was handshaken is answered if it
   asks for errors. Any other request is handshaken again.
   */
  predicate Restarted(v: View, failed: bool, v': View, answered': seq<nat>, answered: seq<nat>) {
    if v.pending.None? then v' == View(v.id, Started, None) && answered' == answered
    else if v.state == Executing && (v.pending.value.returnError || !failed) then
      v' == View(v'.id, Started, None) && answered' == answered + [v.pending.value.id]
    else if v.state == Handshaking && v.pending.value.returnError then
      v' == View(v.id, Started, None) && answered' == answered + [v.pending.value.id]
    else v' == View(v.id, Handshaking, v.pending) && answered' == answered
  }

  /** What becomes of process v when something is written to it. */
  predicate Written(v: View, w: Pipe, v': View, answered': seq<nat>, answered: seq<nat>) {
    if w.wrote then v' == v && answered' == answered else Restarted(v, w.failed, v', answered', answered)
  }

  /** A reply answers the request, or after the handshake lets it be executed. */
  predicate Replied(v: View, w: Pipe, v': View, answered': seq<nat>, answered: seq<nat>) {
    if v.state == Handshaking then Written(View(v.id, Executing, v.pending), w, v', answered', answered)
    else v.pending.Some? && v' == View(v.id, Idle, None) && answered' == answered + [v.pending.value.id]
  }

  /** What an event makes of a process. */
  predicate Happens(v: View, e: Event, v': View, answered': seq<nat>, answered: seq<nat>) {
    if Quiet(v, e) then v' == v && answered' == answered
    else if Replies(e) && Busy(v.state) then Replied(v, e.pipe, v', answered', answered)
    else Breaks(v, e) && Restarted(v, e.pipe.failed, v', answered', answered)
  }

  // The same, kept behind quantifiers.

  ghost predicate Sent(v: View, w: Pipe, v': View, answered': seq<nat>, answered: seq<nat>) {
    forall u: bool {:trigger Open(u)} :: Open(u) ==> Written(v, w, v', answered', answered)
  }

  ghost predicate Happened(v: View, e: Event, v': View, answered': seq<nat>, answered: seq<nat>) {
    forall u: bool {:trigger Open(u)} :: Open(u) ==> Happens(v, e, v', answered', answered)
  }

  const MAX_ATTEMPTS: nat := 20
  const RESTART_EVERY: nat := 600

  class Proc {
    const hub: Hub
    ghost const place: nat
    var id: nat
    var state: State
    var msg: Option<Request>
    var attempts: nat
    var freshness: nat
    var kind: nat
    var env: nat
    var sandbox: int

    /** The subprocess was set up for this request, and just now if the request asks for it. */
    predicate SetUpFor(m: Request)
      reads this`kind, this`env, this`sandbox, this`freshness
    {
      kind == m.kind && env == m.env && sandbox == m.sandbox && (m.reset ==> freshness == 0)
    }

    predicate Tuned()
      reads this`state, this`msg, this`kind, this`env, this`sandbox, this`freshness
    {
      (state == Started ==> freshness == 0) && (Busy(state) && msg.Some? ==> SetUpFor(msg.value))
    }

    ghost predicate Sound()
      reads this, hub.pool
    {
      hub.pool.Valid() && id in hub.pool.held && attempts <= MAX_ATTEMPTS && Tuned()
    }

    ghost function V(): View
      reads this`id, this`state, this`msg
    {
      View(id, state, msg)
    }

    constructor (hub: Hub, ghost place: nat)
      requires hub.pool.Valid() && |hub.pool.ids| > 0
      modifies hub.pool
      ensures this.hub == hub && this.place == place && Sound() && state == Started && msg.None?
      ensures old(hub.pool.ids) == [id] + hub.pool.ids
      ensures id !in old(hub.pool.held) && hub.pool.held == old(hub.pool.held) + {id}
    {
      this.hub, this.place := hub, place;
      state, msg, attempts, freshness, kind, env, sandbox := Started, None, 0, 0, 0, 0, 0;
      var first := hub.pool.Alloc();
      id := first;
    }

    method ChangeState(s: State)
      modifies this`state, hub`restarting
      ensures state == s && hub.restarting - Shaking(V()) == old(hub.restarting - Shaking(V()))
    {
      if state == Handshaking { hub.restarting := hub.restarting - 1; }
      if s == Handshaking { hub.restarting := hub.restarting + 1; }
      state := s;
    }

    /** Whether the request is answered with the failure instead of tried again. */
    predicate FailCurrentRequest(failed: bool)
      reads this
    {
      if msg.None? then false
      else if state == Handshaking then msg.value.returnError
      else state == Executing && (!failed || msg.value.returnError)
    }

    method HandleCompletion()
      requires msg.Some?
      modifies this`msg, this`state, this`freshness, hub`restarting, hub`answered
      ensures msg.None? && state == Idle
      ensures hub.answered == old(hub.answered) + [old(msg).value.id]
      ensures hub.restarting == old(hub.restarting - Shaking(V()))
    {
      freshness := freshness + 1;
      hub.answered := hub.answered + [msg.value.id];
      msg := None;
      ChangeState(Idle);
    }

    /** The process keeps its id. */
    ghost predicate SameId(id0: nat, ids0: seq<nat>)
      reads this`id, hub.pool
    {
      id == id0 && hub.pool.ids == ids0
    }

    /** The process looks like v, and these requests are answered. */
    ghost predicate Is(v: View, answered: seq<nat>)
      reads this`id, this`state, this`msg, hub`answered
    {
      V() == v && hub.answered == answered
    }

    /** Only a process that was executing gets a new id, and only if its request is answered. */
    ghost predicate IdAfter(v: View, failed: bool, ids0: seq<nat>)
      reads this`id, hub.pool
    {
      if v.state == Executing && v.pending.Some? && (v.pending.value.returnError || !failed)
      then [id] + hub.pool.ids == ids0 + [v.id]
      else SameId(v.id, ids0)
    }

    /** Kill the subprocess, answer its request or keep it, and start again; false after too many attempts. */
    method Restart(failed: bool) returns (ok: bool)
      requires Sound() && Settled(V())
      modifies this, hub`restarting, hub`answered, hub.pool
      ensures !ok ==> attempts > MAX_ATTEMPTS
      ensures ok ==> Sound() && Settled(V())
                     && Conserved(old(V()), old(hub.restarting), old(hub.answered), old(hub.pool.held))
      ensures ok ==> Restarted(old(V()), failed, V(), hub.answered, old(hub.answered))
      ensures ok ==> IdAfter(old(V()), failed, old(hub.pool.ids))
      decreases 21 - attempts, 0
    {
      attempts := attempts + 1;
      if attempts > MAX_ATTEMPTS { return false; }
      if FailCurrentRequest(failed) { GiveUp(); }
      ok := Start();
    }

    /** The request is answered with the failure; if it was executed, the id may still be in use. */
    method GiveUp()
      requires Sound() && msg.Some? && Busy(state)
      modifies this`id, this`msg, this`state, this`freshness, hub`restarting, hub`answered, hub.pool
      ensures Sound() && msg.None? && state == Idle && hub.answered == old(hub.answered) + [old(msg).value.id]
      ensures hub.restarting == old(hub.restarting - Shaking(V())) && hub.pool.held - {id} == old(hub.pool.held - {id})
      ensures if old(state) == Executing then [id] + hub.pool.ids == old(hub.pool.ids) + [old(id)]
              else SameId(old(id), old(hub.pool.ids))
    {
      var hanged := state == Executing;
      HandleCompletion();
      if hanged { id := hub.pool.Realloc(id); }
    }

    method Start() returns (ok: bool)
      requires Sound()
      modifies this, hub`restarting, hub`answered, hub.pool
      ensures !ok ==> attempts > MAX_ATTEMPTS
      ensures ok ==> Sound() && Settled(V())
                     && Conserved(old(V()), old(hub.restarting), old(hub.answered), old(hub.pool.held))
      ensures ok ==> SameId(old(id), old(hub.pool.ids))
      ensures ok && old(msg).None? ==> Is(View(old(id), Started, None), old(hub.answered))
      ensures ok && old(msg).Some? && !old(msg).value.returnError ==>
                Is(View(old(id), Handshaking, old(msg)), old(hub.answered))
      decreases 21 - attempts, 2
    {
      ChangeState(Started);
      freshness := 0;
      if msg.Some? {
        var wrote: bool := *;
        ok := Handshake(wrote);
      } else {
        ok := true;
      }
    }

    method Handshake(wrote: bool) returns (ok: bool)
      requires Sound() && state == Started && msg.Some?
      modifies this, hub`restarting, hub`answered, hub.pool
      ensures !ok ==> attempts > MAX_ATTEMPTS
      ensures ok ==> Sound() && Settled(V())
                     && Conserved(old(V()), old(hub.restarting), old(hub.answered), old(hub.pool.held))
      ensures ok ==> SameId(old(id), old(hub.pool.ids))
      ensures ok && (wrote || !old(msg).value.returnError) ==>
                Is(View(old(id), Handshaking, old(msg)), old(hub.answered))
      ensures ok && !wrote && old(msg).value.returnError ==>
                Is(View(old(id), Started, None), old(hub.answered) + [old(msg).value.id])
      decreases 21 - attempts, 1
    {
      if state != Started || msg.None? { assert false; }
      ChangeState(Handshaking);
      kind, env, sandbox := msg.value.kind, msg.value.env, msg.value.sandbox;
      if wrote {
        ok := true;
      } else {
        var failed: bool := *;
        ok := Restart(failed);
      }
    }

    method ExecuteMsg(w: Pipe) returns (ok: bool)
      requires Sound() && state == Idle && msg.Some? && SetUpFor(msg.value)
      modifies this, hub`restarting, hub`answered, hub.pool
      ensures !ok ==> attempts > MAX_ATTEMPTS
      ensures ok ==> Sound() && Settled(V())
                     && Conserved(old(V()), old(hub.restarting), old(hub.answered), old(hub.pool.held))
      ensures w.wrote ==> ok && SameId(old(id), old(hub.pool.ids))
      ensures ok ==> Written(View(old(id), Executing, old(msg)), w, V(), hub.answered, old(hub.answered))
      ensures ok && !w.wrote ==> IdAfter(View(old(id), Executing, old(msg)), w.failed, old(hub.pool.ids))
    {
      if state != Idle || msg.None? { assert false; }
      ChangeState(Executing);
      if w.wrote { ok := true; } else { ok := Restart(w.failed); }
    }

    /** ReadResponse; the second result is false if the process must be restarted. */
    method ReadResponse(eof: bool, w: Pipe) returns (ok: bool, good: bool)
      requires Sound() && Settled(V())
      modifies this, hub`restarting, hub`answered, hub.pool
      ensures !ok ==> attempts > MAX_ATTEMPTS
      ensures ok ==> Sound() && Settled(V())
                     && Conserved(old(V()), old(hub.restarting), old(hub.answered), old(hub.pool.held))
      ensures ok ==> (good <==> !eof && Busy(old(state)))
      ensures !eof && old(state) == Executing ==> ok
      ensures ok && !good ==> unchanged(this) && unchanged(hub) && unchanged(hub.pool)
      ensures ok && good ==> Replied(old(V()), w, V(), hub.answered, old(hub.answered))
      ensures ok && good && old(state) == Executing ==> unchanged(hub.pool)
    {
      if eof { return true, false; }
      ok, good := true, true;
      if state == Handshaking {
        ChangeState(Idle);
        ok := ExecuteMsg(w);
      } else if state == Executing {
        HandleCompletion();
      } else {
        good := false;
      }
    }

    /** Ready */
    method Ready(e: Event) returns (ok: bool)
      requires Sound() && Settled(V())
      modifies this, hub`restarting, hub`answered, hub.pool
      ensures !ok ==> attempts > MAX_ATTEMPTS
      ensures ok ==> Sound() && Settled(V())
                     && Conserved(old(V()), old(hub.restarting), old(hub.answered), old(hub.pool.held))
      ensures Quiet(old(V()), e) ==> ok && unchanged(this) && unchanged(hub) && unchanged(hub.pool)
      ensures Replies(e) && old(state) == Executing ==> ok
      ensures ok ==> Happened(old(V()), e, V(), hub.answered, old(hub.answered))
      ensures ok && Breaks(old(V()), e) ==> IdAfter(old(V()), e.pipe.failed, old(hub.pool.ids))
      ensures ok && Replies(e) && old(state) == Executing ==> unchanged(hub.pool)
    {
      if Busy(state) && e.timeout {
        ok := Restart(e.pipe.failed);
        return;
      }
      if e.outputEof {
        ok := Restart(e.pipe.failed);
        return;
      }
      ok := true;
      if e.response {
        var good;
        ok, good := ReadResponse(e.responseEof, e.pipe);
        if ok && !good { ok := Restart(e.pipe.failed); }
      }
    }

    /** The request as it would be taken: an avoid mask that rules out every process is dropped. */
    function Relaxed(m: Request): Request
      reads hub.pool
    {
      if Covered(m.avoid, hub.pool.mask) then m.(avoid := 0) else m
    }

    predicate Accepts(m: Request)
      reads this, hub.pool
    {
      !Busy(state) && !Bit(Relaxed(m).avoid, id)
    }

    /** A free process accepts a request unless the request avoids its id and not all ids in use. */
    lemma {:induction false} AcceptsIff(m: Request)
      requires hub.pool.Valid()
      ensures Accepts(m) <==> !Busy(state) && (Bit(m.avoid, id) ==> forall k :: k in hub.pool.held ==> Bit(m.avoid, k))
    {
      var mask := hub.pool.mask;
      if Covered(m.avoid, mask) {
        ZeroHasNoBits(id);
        forall k | k in hub.pool.held ensures Bit(m.avoid, k) { CoveredBit(m.avoid, mask, k); }
      } else if forall k :: k in hub.pool.held ==> Bit(m.avoid, k) {
        AllBitsCovered(m.avoid, mask);
      }
    }

    /** Whether the subprocess is replaced before it gets the request. */
    predicate Stale(m: Request, triaged: bool)
      reads this, hub`restarting
    {
      (triaged && hub.restarting == 0 && freshness >= RESTART_EVERY) || kind != m.kind ||
      env != m.env || m.reset || sandbox != m.sandbox
    }

    /** The restart that may come before a new request. */
    method Refresh(m: Request, triaged: bool) returns (ok: bool)
      requires Sound() && msg.None? && !Busy(state)
      modifies this, hub`restarting, hub`answered, hub.pool
      ensures !ok ==> attempts > MAX_ATTEMPTS
      ensures ok ==> Sound() && SameId(old(id), old(hub.pool.ids)) && hub.restarting == old(hub.restarting)
      ensures ok ==> hub.pool.held == old(hub.pool.held)
      ensures ok ==> Is(View(old(id), if old(Fits(m, triaged)) then Idle else Started, None), old(hub.answered))
      ensures ok && state == Idle ==> SetUpFor(m)
    {
      ok := true;
      if state == Idle && Stale(m, triaged) {
        var failed: bool := *;
        ok := Restart(failed);
      }
    }

    /** The process can execute the request as it is. */
    predicate Fits(m: Request, triaged: bool)
      reads this, hub`restarting
    {
      state == Idle && !Stale(m, triaged)
    }

    /** Execute(msg): whether this process takes the request */
    method Offer(m: Request, triaged: bool, w: Pipe) returns (ok: bool, taken: bool)
      requires Sound() && Settled(V())
      modifies this, hub`restarting, hub`answered, hub.pool
      ensures taken == old(Accepts(m))
      ensures !taken ==> ok && unchanged(this) && unchanged(hub) && unchanged(hub.pool)
      ensures !ok ==> attempts > MAX_ATTEMPTS
      ensures ok && taken ==>
                && Sound() && Settled(V()) && old(msg).None?
                && Conserved(View(old(id), old(state), Some(m)), old(hub.restarting), old(hub.answered),
                             old(hub.pool.held))
      ensures ok && taken ==>
                var how := View(old(id), if old(Fits(m, triaged)) then Executing
                    else Handshaking, Some(old(Relaxed(m))));
                && Sent(how, w, V(), hub.answered, old(hub.answered))
                && if w.wrote then SameId(old(id), old(hub.pool.ids)) else IdAfter(how, w.failed, old(hub.pool.ids))
    {
      if state != Started && state != Idle { return true, false; }
      var m' := Relaxed(m);
      if Bit(m'.avoid, id) { return true, false; }
      if msg.Some? { assert false; }
      taken := true;
      ok := Refresh(m', triaged);
      if !ok { return; }
      attempts := 0;
      msg := Some(m');
      if state == Started { ok := Handshake(w.wrote); } else { ok := ExecuteMsg(w); }
    }

    /** Nothing is lost between the process, the counter, the answers and the pool. */
    ghost predicate Conserved(v: View, restarting: int, answered: seq<nat>, held: set<nat>)
      reads this`id, this`state, this`msg, hub`restarting, hub`answered, hub.pool
    {
      && Pending(V()) + multiset(hub.answered) == Pending(v) + multiset(answered)
      && hub.restarting - Shaking(V()) == restarting - Shaking(v)
      && hub.pool.held - {id} == held - {v.id}
    }
  }

  // ----- all processes -----

  function TotalShaking(vs: seq<View>): int {
    if |vs| == 0 then 0 else TotalShaking(vs[..|vs| - 1]) + Shaking(vs[|vs| - 1])
  }

  function Total(f: View -> multiset<nat>, vs: seq<View>): multiset<nat> {
    if |vs| == 0 then multiset{} else Total(f, vs[..|vs| - 1]) + f(vs[|vs| - 1])
  }

  function TotalPending(vs: seq<View>): multiset<nat> { Total(Pending, vs) }

  function IdBag(v: View): multiset<nat> { multiset{v.id} }

  function Ids(vs: seq<View>): multiset<nat> { Total(IdBag, vs) }

  function QueueIds(rs: seq<Request>): multiset<nat> {
    if |rs| == 0 then multiset{} else multiset{rs[0].id} + QueueIds(rs[1..])
  }

  lemma {:induction false} QueueSnoc(rs: seq<Request>, r: Request)
    ensures QueueIds(rs + [r]) == QueueIds(rs) + multiset{r.id}
  {
    if |rs| > 0 {
      assert (rs + [r])[1..] == rs[1..] + [r];
      QueueSnoc(rs[1..], r);
    }
  }

  lemma {:induction false} ShakingUpdate(vs: seq<View>, i: nat, v: View)
    requires i < |vs|
    ensures TotalShaking(vs[i := v]) == TotalShaking(vs) - Shaking(vs[i]) + Shaking(v)
  {
    var n := |vs| - 1;
    if i == n {
      assert vs[i := v][..n] == vs[..n];
    } else {
      assert vs[i := v][..n] == vs[..n][i := v];
      ShakingUpdate(vs[..n], i, v);
    }
  }

  lemma {:induction false} SwapLast(p: multiset<nat>, x: multiset<nat>, y: multiset<nat>)
    ensures (p + x) + y == (p + y) + x
  {
  }

  lemma {:induction false} Exchange(a: multiset<nat>, a': multiset<nat>, x: multiset<nat>, y: multiset<nat>,
                                    c: multiset<nat>)
    requires a' + x == a + y
    ensures (a' + c) + x == (a + c) + y
  {
    assert (a' + c) + x == (a' + x) + c;
    assert (a + c) + y == (a + y) + c;
  }

  lemma {:induction false} TotalUpdate(f: View -> multiset<nat>, vs: seq<View>, i: nat, v: View)
    requires i < |vs|
    ensures Total(f, vs[i := v]) + f(vs[i]) == Total(f, vs) + f(v)
  {
    var n := |vs| - 1;
    if i == n {
      assert vs[i := v][..n] == vs[..n];
      SwapLast(Total(f, vs[..n]), f(v), f(vs[i]));
    } else {
      assert vs[i := v][..n] == vs[..n][i := v];
      TotalUpdate(f, vs[..n], i, v);
      Exchange(Total(f, vs[..n]), Total(f, vs[..n][i := v]), f(vs[i]), f(v), f(vs[n]));
    }
  }

  lemma {:induction false} ShakingBounds(vs: seq<View>)
    ensures 0 <= TotalShaking(vs) <= |vs|
  {
    if |vs| > 0 { ShakingBounds(vs[..|vs| - 1]); }
  }

  lemma {:induction false} IdIn(vs: seq<View>, i: nat)
    requires i < |vs|
    ensures vs[i].id in Ids(vs)
  {
    if i < |vs| - 1 {
      assert vs[..|vs| - 1][i] == vs[i];
      IdIn(vs[..|vs| - 1], i);
    }
  }

  lemma {:induction false} IdFrom(vs: seq<View>, id: nat)
    requires id in Ids(vs)
    ensures exists i :: 0 <= i < |vs| && vs[i].id == id
  {
    var n := |vs| - 1;
    if vs[n].id != id {
      IdFrom(vs[..n], id);
      var i :| 0 <= i < n && vs[..n][i].id == id;
      assert vs[i].id == id;
    }
  }

  /**
   The books: handshakes under way are counted, held ids are exactly the processes' ids, and every
   request received is queued, pending on one process, or answered.
   */
  ghost predicate Books(vs: seq<View>, restarting: int, held: set<nat>, queued: multiset<nat>, answered: seq<nat>,
                        received: multiset<nat>) {
    && (forall i :: 0 <= i < |vs| ==> Settled(vs[i]))
    && restarting == TotalShaking(vs)
    && Ids(vs) == multiset(held)
    && queued + TotalPending(vs) + multiset(answered) == received
  }

  /** The same, kept behind a quantifier so that method proofs do not unfold the sums. */
  ghost predicate Balanced(vs: seq<View>, restarting: int, held: set<nat>, queued: multiset<nat>, answered: seq<nat>,
                           received: multiset<nat>) {
    forall u: bool {:trigger Open(u)} :: Open(u) ==> Books(vs, restarting, held, queued, answered, received)
  }

  /** A single process of a balanced runner. */
  lemma {:induction false} BalancedAt(vs: seq<View>, restarting: int, held: set<nat>, queued: multiset<nat>,
                                      answered: seq<nat>,
                   received: multiset<nat>, i: nat)
    requires i < |vs| && Balanced(vs, restarting, held, queued, answered, received)
    ensures Settled(vs[i]) && vs[i].id in held
  {
    assert Open(true);
    IdIn(vs, i);
  }

  /** One process changed from vs[i] to v while one request x may have come to it from outside. */
  lemma {:induction false} BalancedStep(vs: seq<View>, i: nat, v: View, r: int, r': int, h: set<nat>, h': set<nat>,
                                        q: multiset<nat>,
                     a: seq<nat>, a': seq<nat>, rec: multiset<nat>, x: multiset<nat>)
    requires i < |vs| && Balanced(vs, r, h, q, a, rec) && Settled(v)
    requires Pending(v) + multiset(a') == Pending(vs[i]) + x + multiset(a)
    requires r' - Shaking(v) == r - Shaking(vs[i])
    requires h' - {v.id} == h - {vs[i].id} && v.id in h'
    ensures Balanced(vs[i := v], r', h', q, a', rec + x)
  {
    assert Open(true);
    ShakingUpdate(vs, i, v);
    TotalUpdate(Pending, vs, i, v);
    TotalUpdate(IdBag, vs, i, v);
    IdIn(vs, i);
    HeldStep(Ids(vs[i := v]), h, h', vs[i].id, v.id);
    PendingStep(vs, vs[i := v], vs[i], v, q, a, a', x);
  }

  lemma {:induction false} HeldStep(ids: multiset<nat>, h: set<nat>, h': set<nat>, x: nat, y: nat)
    requires ids + multiset{x} == multiset(h) + multiset{y} && x in h && y in h' && h' - {y} == h - {x}
    ensures ids == multiset(h')
  {
    forall k ensures ids[k] == multiset(h')[k] {
      assert (ids + multiset{x})[k] == (multiset(h) + multiset{y})[k];
      assert k in h' - {y} <==> k in h - {x};
    }
  }

  lemma {:induction false} PendingStep(vs: seq<View>, vs': seq<View>, w: View, v: View, q: multiset<nat>, a: seq<nat>,
                                       a': seq<nat>, x: multiset<nat>)
    requires TotalPending(vs') + Pending(w) == TotalPending(vs) + Pending(v)
    requires Pending(v) + multiset(a') == Pending(w) + x + multiset(a)
    ensures q + TotalPending(vs') + multiset(a') == q + TotalPending(vs) + multiset(a) + x
  {
    var p, p', b, b' := TotalPending(vs), TotalPending(vs'), multiset(a), multiset(a');
    forall k ensures (q + p' + b')[k] == (q + p + b + x)[k] {
      assert (p' + Pending(w))[k] == (p + Pending(v))[k];
      assert (Pending(v) + b')[k] == (Pending(w) + x + b)[k];
    }
  }

  // ----- rounds -----

  /**
   The turn of one process: what it was like, what its event made of it, with which ids in use it was
   then asked, whether it took the front request and how, what it is like afterwards, and the
   requests answered on the way.
   */
  datatype Moment = Moment(before: View, ready: View, replies: seq<nat>, held: set<nat>, taken: bool, how: View,
                           after: View, more: seq<nat>)

  /** A free process takes a request unless the request avoids its id but not all ids in use. */
  predicate Willing(v: View, held: set<nat>, m: Request) {
    !Busy(v.state) && (Bit(m.avoid, v.id) ==> forall k :: k in held ==> Bit(m.avoid, k))
  }

  /** Process v has request m now; one that was just started must do the handshake. */
  predicate TakenBy(v: View, m: Request, how: View) {
    && Busy(how.state) && (v.state == Started ==> how.state == Handshaking) && how.id == v.id
    && (how.pending == Some(m) || how.pending == Some(m.(avoid := 0)))
  }

  /** The front request, if there is one to offer. */
  function Front(q: seq<Request>, due: bool): Option<Request> { if due || |q| == 0 then None else Some(q[0]) }

  /** The turn follows from the event, the front request and what the process does with it. */
  predicate Follows(t: Moment, e: Event, w: Pipe, front: Option<Request>) {
    && Happens(t.before, e, t.ready, t.replies, [])
    && (t.taken <==> front.Some? && Willing(t.ready, t.held, front.value))
    && if t.taken then TakenBy(t.ready, front.value, t.how) && Written(t.how, w, t.after, t.more, [])
       else t.after == t.ready && t.more == []
  }

  /** The same, kept behind a quantifier. */
  ghost predicate Turned(t: Moment, e: Event, w: Pipe, front: Option<Request>) {
    forall u: bool {:trigger Open(u)} :: Open(u) ==> Follows(t, e, w, front)
  }

  /** What process v does with request m, kept behind a quantifier. */
  ghost predicate Asked(v: View, held: set<nat>, m: Request, w: Pipe, taken: bool, how: View, v': View,
                        more: seq<nat>) {
    forall u: bool {:trigger Open(u)} :: Open(u) ==>
      && (taken <==> Willing(v, held, m))
      && (taken ==> TakenBy(v, m, how) && Written(how, w, v', more, []))
  }

  lemma {:induction false} NotAsked(t: Moment, e: Event, w: Pipe)
    requires Happened(t.before, e, t.ready, t.replies, []) && !t.taken && t.after == t.ready && t.more == []
    ensures Turned(t, e, w, None)
  {
    assert Open(true);
  }

  lemma {:induction false} AskedTurn(t: Moment, e: Event, w: Pipe, m: Request)
    requires Happened(t.before, e, t.ready, t.replies, [])
    requires Asked(t.ready, t.held, m, w, t.taken, t.how, t.after, t.more)
    requires !t.taken ==> t.after == t.ready && t.more == []
    ensures Turned(t, e, w, Some(m))
  {
    assert Open(true);
  }

  lemma {:induction false} AskedFrom(v: View, held: set<nat>, m: Request, w: Pipe, taken: bool, how: View, v': View,
                                     more: seq<nat>)
    requires taken <==> Willing(v, held, m)
    requires taken ==> TakenBy(v, m, how) && Sent(how, w, v', more, [])
    ensures Asked(v, held, m, w, taken, how, v', more)
  {
    assert Open(true);
  }

  function Takes(log: seq<Moment>): (n: nat)
    ensures n <= |log|
  {
    if |log| == 0 then 0 else Takes(log[..|log| - 1]) + if log[|log| - 1].taken then 1 else 0
  }

  function Told(log: seq<Moment>): seq<nat> {
    if |log| == 0 then [] else Told(log[..|log| - 1]) + log[|log| - 1].replies + log[|log| - 1].more
  }

  /** The front request at a turn when n requests were taken before; none if the leak check is due. */
  function FrontAfter(q: seq<Request>, n: nat, leaks: bool, execs: nat, procs: nat): Option<Request>
  {
    Front(if n <= |q| then q[n..] else [], leaks && execs + n >= 2 * procs)
  }

  /** Turns from queue q on, with that many requests since the last leak check. */
  ghost predicate Round(log: seq<Moment>, vs: seq<View>, es: seq<Event>, ws: seq<Pipe>, q: seq<Request>, leaks: bool,
                        execs: nat)
  {
    forall u: bool {:trigger Open(u)} :: Open(u) ==> Turns(log, vs, es, ws, q, leaks, execs)
  }

  ghost predicate Turns(log: seq<Moment>, vs: seq<View>, es: seq<Event>, ws: seq<Pipe>, q: seq<Request>, leaks: bool,
                        execs: nat)
  {
    && |log| <= |vs| == |es| == |ws| && Takes(log) <= |q|
    && forall i :: 0 <= i < |log| ==> TurnAt(log[i], log[..i], vs, es, ws, q, leaks, execs)
  }

  /** Turn t comes behind the turns so far. */
  predicate TurnAt(t: Moment, before: seq<Moment>, vs: seq<View>, es: seq<Event>, ws: seq<Pipe>, q: seq<Request>,
                   leaks: bool, execs: nat)
  {
    var i := |before|;
    && i < |vs| == |es| == |ws| && t.before == vs[i]
    && Follows(t, es[i], ws[i], FrontAfter(q, Takes(before), leaks, execs, |vs|))
  }

  lemma {:induction false} NextTurn(log: seq<Moment>, vs: seq<View>, es: seq<Event>, ws: seq<Pipe>, q: seq<Request>,
                                    leaks: bool, execs: nat, t: Moment)
    requires Round(log, vs, es, ws, q, leaks, execs) && |log| < |vs| && |es| == |ws| == |vs| && Takes(log) <= |q|
    requires Fits(t, log, vs, es, ws, q, leaks, execs) && (t.taken ==> Takes(log) < |q|)
    ensures Round(log + [t], vs, es, ws, q, leaks, execs)
    ensures Takes(log + [t]) == Takes(log) + (if t.taken then 1 else 0) <= |q|
  {
    assert Open(true);
    var more := log + [t];
    assert more[..|log|] == log;
    forall i | 0 <= i < |more| ensures TurnAt(more[i], more[..i], vs, es, ws, q, leaks, execs) {
      if i < |log| {
        assert more[..i] == log[..i] && more[i] == log[i];
        assert TurnAt(log[i], log[..i], vs, es, ws, q, leaks, execs);
      }
    }
  }

  lemma {:induction false} TurnFollows(t: Moment, log: seq<Moment>, vs: seq<View>, es: seq<Event>, ws: seq<Pipe>,
                                       q: seq<Request>, leaks: bool, execs: nat, front: Option<Request>)
    requires |log| < |vs| && |es| == |ws| == |vs| && t.before == vs[|log|] && Takes(log) <= |q|
    requires front == Front(q[Takes(log)..], leaks && execs + Takes(log) >= 2 * |vs|)
    requires Turned(t, es[|log|], ws[|log|], front)
    ensures Fits(t, log, vs, es, ws, q, leaks, execs) && (t.taken ==> Takes(log) < |q|)
  {
    assert Open(true);
  }

  ghost predicate Fits(t: Moment, before: seq<Moment>, vs: seq<View>, es: seq<Event>, ws: seq<Pipe>, q: seq<Request>,
                       leaks: bool, execs: nat)
  {
    forall u: bool {:trigger Open(u)} :: Open(u) ==> TurnAt(t, before, vs, es, ws, q, leaks, execs)
  }

  lemma {:induction false} NextTold(a: seq<nat>, log: seq<Moment>, t: Moment)
    ensures a + Told(log) + t.replies + t.more == a + Told(log + [t])
  {
    assert (log + [t])[..|log|] == log;
    assert Told(log + [t]) == Told(log) + t.replies + t.more;
    JoinFour(a, Told(log), t.replies, t.more);
  }

  lemma {:induction false} JoinFour(a: seq<nat>, b: seq<nat>, c: seq<nat>, d: seq<nat>)
    ensures a + b + c + d == a + (b + c + d)
  {
  }

  // ----- the runner -----

  class RequestRunner {
    const hub: Hub
    const procs: seq<Proc>
    var requests: seq<Request>
    var triaged: bool
    var leakEnabled: bool
    var execs: nat
    ghost var received: multiset<nat>
    ghost var views: seq<View>

    ghost predicate Shape() {
      forall i :: 0 <= i < |procs| ==> procs[i].hub == hub && procs[i].place == i
    }

    ghost predicate Mirrored()
      reads this`views, procs
    {
      && |views| == |procs|
      && (forall i {:trigger procs[i]} :: 0 <= i < |procs| ==> procs[i].attempts <= MAX_ATTEMPTS
                                                               && procs[i].Tuned() && procs[i].V() == views[i])
    }

    ghost predicate Valid()
      reads this, procs, hub, hub.pool
    {
      && Shape() && hub.pool.Valid() && Mirrored()
      && Balanced(views, hub.restarting, hub.pool.held, QueueIds(requests), hub.answered, received)
    }

    constructor (n: nat, leakEnabled: bool)
      ensures Valid() && |procs| == n && requests == [] && received == multiset{}
    {
      var h := new Hub(n);
      var ps: seq<Proc> := [];
      ghost var vs: seq<View> := [];
      var i := 0;
      while i != n
        invariant 0 <= i <= n && |ps| == |vs| == i && |h.pool.ids| >= n - i
        invariant h.pool.Valid() && h.restarting == 0 && h.answered == [] && fresh(h) && fresh(h.pool)
        invariant forall j :: 0 <= j < i ==> fresh(ps[j]) && ps[j].hub == h && ps[j].place == j
                                             && ps[j].attempts <= MAX_ATTEMPTS && ps[j].Tuned() && ps[j].V() == vs[j]
        invariant Balanced(vs, 0, h.pool.held, multiset{}, [], multiset{})
        decreases n - i
      {
        ghost var held := h.pool.held;
        var p := new Proc(h, i);
        BalancedNew(vs, p.V(), held);
        ps, vs := ps + [p], vs + [p.V()];
        i := i + 1;
      }
      hub, procs := h, ps;
      requests, triaged, this.leakEnabled, execs, received := [], false, leakEnabled, 0, multiset{};
      views := vs;
    }

    /** IsScheduledForLeakCheck */
    predicate LeakCheckDue()
      reads this
    {
      leakEnabled && triaged && execs >= 2 * |procs|
    }

    /** Every process but i is as last seen. */
    ghost predicate MirroredBut(k: nat)
      reads this`views, procs
    {
      && |views| == |procs|
      && (forall i {:trigger procs[i]} :: 0 <= i < |procs| && i != k ==>
            procs[i].attempts <= MAX_ATTEMPTS && procs[i].Tuned() && procs[i].V() == views[i])
    }

    /** Process i has moved, perhaps taking requests x from outside: the books are brought up to date. */
    ghost method Update(i: nat, r: int, a: seq<nat>, h: set<nat>, x: multiset<nat>)
      requires Shape() && i < |procs| && MirroredBut(i) && procs[i].Sound() && Settled(procs[i].V())
      requires Balanced(views, r, h, QueueIds(requests), a, received)
      requires Pending(procs[i].V()) + multiset(hub.answered) == Pending(views[i]) + x + multiset(a)
      requires hub.restarting - Shaking(procs[i].V()) == r - Shaking(views[i])
      requires hub.pool.held - {procs[i].id} == h - {views[i].id}
      modifies this`views, this`received
      ensures Valid() && received == old(received) + x && views == old(views)[i := procs[i].V()]
    {
      var v := procs[i].V();
      BalancedStep(views, i, v, r, hub.restarting, h, hub.pool.held, QueueIds(requests), a, hub.answered, received, x);
      views, received := views[i := v], received + x;
    }

    /** A process offered request m: it is taken with the books kept, or nothing changes. */
    method OfferTo(i: nat, m: Request, w: Pipe) returns (ok: bool, taken: bool, ghost how: View, ghost more: seq<nat>)
      requires Valid() && i < |procs|
      modifies this`received, this`views, procs, hub, hub.pool
      ensures taken == old(procs[i].Accepts(m))
      ensures !ok ==> procs[i].attempts > MAX_ATTEMPTS
      ensures !taken ==> ok && unchanged(this) && unchanged(hub) && unchanged(hub.pool) && more == []
      ensures !taken ==> forall j {:trigger procs[j]} :: 0 <= j < |procs| ==> unchanged(procs[j])
      ensures ok ==> Valid() && |views| == |old(views)|
      ensures ok && taken ==> received == old(received) + multiset{m.id} && views == old(views)[i := views[i]]
      ensures ok && taken ==> TakenBy(old(views)[i], m, how) && Sent(how, w, views[i], more, [])
                              && hub.answered == old(hub.answered) + more
    {
      ghost var r, a, h := hub.restarting, hub.answered, hub.pool.held;
      how, more := views[i], [];
      BalancedAt(views, r, h, QueueIds(requests), a, received, i);
      ghost var v := procs[i].V();
      ghost var s, m' := if procs[i].Fits(m, triaged) then Executing else Handshaking, procs[i].Relaxed(m);
      ok, taken := procs[i].Offer(m, triaged, w);
      if ok && taken {
        how := View(v.id, s, Some(m'));
        more := SentMore(how, w, procs[i].V(), hub.answered, a);
        Update(i, r, a, h, multiset{m.id});
      }
    }

    /** Ready on process i */
    method ReadyAt(i: nat, e: Event) returns (ok: bool, ghost replies: seq<nat>)
      requires Valid() && i < |procs|
      modifies this`received, this`views, procs, hub, hub.pool
      ensures !ok ==> procs[i].attempts > MAX_ATTEMPTS
      ensures ok ==> Valid() && received == old(received)
      ensures ok ==> |views| == |old(views)| && views == old(views)[i := views[i]]
      ensures ok ==> Happened(old(views)[i], e, views[i], replies, []) && hub.answered == old(hub.answered) + replies
    {
      ghost var r, a, h := hub.restarting, hub.answered, hub.pool.held;
      BalancedAt(views, r, h, QueueIds(requests), a, received, i);
      ok := procs[i].Ready(e);
      replies := [];
      if ok {
        replies := HappenedMore(views[i], e, procs[i].V(), hub.answered, a);
        Update(i, r, a, h, multiset{});
      }
    }

    predicate AllFree()
      reads procs
    {
      forall i :: 0 <= i < |procs| ==> procs[i].state == Started || procs[i].state == Idle
    }

    /** Whatever the avoid mask, a request finds a process once all are free. */
    lemma {:induction false} SomeAccepts(m: Request)
      requires Valid() && |procs| > 0 && AllFree()
      ensures exists i :: 0 <= i < |procs| && procs[i].Accepts(m)
    {
      assert Open(true);
      var mask := hub.pool.mask;
      if Covered(m.avoid, mask) {
        ZeroHasNoBits(procs[0].id);
        assert procs[0].Accepts(m);
      } else {
        if forall id: nat :: Bit(mask, id) ==> Bit(m.avoid, id) { AllBitsCovered(m.avoid, mask); }
        var id: nat :| Bit(mask, id) && !Bit(m.avoid, id);
        assert id in hub.pool.held;
        assert id in Ids(views);
        IdFrom(views, id);
        var i :| 0 <= i < |views| && views[i].id == id;
        assert procs[i].V() == views[i];
        assert procs[i].Accepts(m);
      }
    }

    /** Request m goes to a process at once. */
    ghost predicate Taken(m: Request)
      requires Shape()
      reads this, procs, hub, hub.pool
    {
      !LeakCheckDue() && exists i {:trigger procs[i]} :: 0 <= i < |procs| && procs[i].Accepts(m)
    }

    /** Process k accepts the request, and none before it does. */
    ghost predicate IsFirst(m: Request, k: nat)
      requires Shape() && k < |procs|
      reads procs, hub.pool
    {
      procs[k].Accepts(m) && forall j {:trigger procs[j]} :: 0 <= j < k ==> !procs[j].Accepts(m)
    }

    /** Handle(ExecRequest): the first process that accepts gets the request, else it is queued. */
    method Handle(m: Request, w: Pipe) returns (ok: bool, ghost at: nat)
      requires Valid()
      modifies this`received, this`views, this`requests, procs, hub, hub.pool
      ensures ok ==> Valid() && received == old(received) + multiset{m.id}
      ensures ok ==> requests == if old(Taken(m)) then old(requests) else old(requests) + [m]
      ensures ok && old(!LeakCheckDue() && |procs| > 0 && AllFree()) ==> requests == old(requests)
      ensures ok && old(Taken(m)) ==> at < |procs| && old(IsFirst(m, at)) && |views| == |old(views)|
                                      && views == old(views)[at := views[at]]
      ensures ok && !old(Taken(m)) ==> views == old(views) && hub.answered == old(hub.answered)
      ensures ok ==> BusyStay(old(views)) && old(hub.answered) <= hub.answered
      ensures !ok ==> exists i :: 0 <= i < |procs| && procs[i].attempts > MAX_ATTEMPTS
    {
      at := |procs|;
      if !LeakCheckDue() {
        var i := 0;
        while i < |procs|
          invariant 0 <= i <= |procs|
          invariant Valid() && unchanged(this) && unchanged(hub) && unchanged(hub.pool)
          invariant forall j {:trigger procs[j]} :: 0 <= j < |procs| ==> unchanged(procs[j])
          invariant forall j {:trigger procs[j]} :: 0 <= j < i ==> !procs[j].Accepts(m)
        {
          var taken;
          ghost var how, more;
          ok, taken, how, more := OfferTo(i, m, w);
          if taken { return ok, i; }
          i := i + 1;
        }
        if |procs| > 0 && AllFree() { SomeAccepts(m); }
      }
      Queued(views, hub.restarting, hub.pool.held, requests, hub.answered, received, m);
      requests := requests + [m];
      received := received + multiset{m.id};
      ok := true;
    }

    /** Processes that have a request are as they were. */
    ghost predicate BusyStay(vs: seq<View>)
      reads this`views
    {
      |vs| == |views| && forall i :: 0 <= i < |vs| && Busy(vs[i].state) ==> views[i] == vs[i]
    }

    /** The turn of process i in a round of the loop. */
    method Turn(i: nat, e: Event, w: Pipe) returns (ok: bool, ghost t: Moment)
      requires Valid() && i < |procs|
      modifies this, procs, hub, hub.pool
      ensures ok ==> Valid() && received == old(received) && triaged == old(triaged) && leakEnabled == old(leakEnabled)
      ensures ok ==> |old(views)| == |procs| && t.before == old(views)[i] && views == old(views)[i := t.after]
      ensures ok ==> Turned(t, e, w, Front(old(requests), old(LeakCheckDue())))
      ensures ok ==> hub.answered == old(hub.answered) + t.replies + t.more
      ensures ok && !t.taken ==> requests == old(requests) && execs == old(execs)
      ensures ok && t.taken ==> |old(requests)| > 0 && requests == old(requests)[1..] && execs == old(execs) + 1
      ensures !ok ==> exists i :: 0 <= i < |procs| && procs[i].attempts > MAX_ATTEMPTS
    {
      ghost var before, replies := views[i], [];
      t := Moment(before, before, [], {}, false, before, before, []);
      ok, replies := ReadyAt(i, e);
      if !ok { return; }
      ghost var ready, held := views[i], hub.pool.held;
      t := Moment(before, ready, replies, held, false, ready, ready, []);
      if !LeakCheckDue() && |requests| > 0 {
        ghost var m, how, more := requests[0], ready, [];
        var taken;
        ok, taken, how, more := OfferFront(i, w);
        if !ok { return; }
        t := Moment(before, ready, replies, held, taken, how, views[i], more);
        AskedTurn(t, e, w, m);
      } else {
        NotAsked(t, e, w);
      }
    }

    method OfferFront(i: nat, w: Pipe) returns (ok: bool, taken: bool, ghost how: View, ghost more: seq<nat>)
      requires Valid() && i < |procs| && |requests| > 0
      modifies this, procs, hub, hub.pool
      ensures ok ==> Valid() && received == old(received) && triaged == old(triaged) && leakEnabled == old(leakEnabled)
      ensures ok ==> |old(views)| == |procs| && views == old(views)[i := views[i]]
      ensures ok ==> Asked(old(views)[i], old(hub.pool.held), old(requests)[0], w, taken, how, views[i], more)
      ensures ok ==> hub.answered == old(hub.answered) + more
      ensures ok && taken ==> requests == old(requests)[1..] && execs == old(execs) + 1
      ensures !taken ==> ok && requests == old(requests) && execs == old(execs)
      ensures !taken ==> views[i] == old(views)[i] && more == []
      ensures !ok ==> procs[i].attempts > MAX_ATTEMPTS
    {
      ghost var rec, q, v, held := received, requests, views[i], hub.pool.held;
      procs[i].AcceptsIff(requests[0]);
      ok, taken, how, more := OfferTo(i, requests[0], w);
      if ok { AskedFrom(v, held, q[0], w, taken, how, views[i], more); }
      if ok && taken {
        Popped(views, hub.restarting, hub.pool.held, requests, hub.answered, rec);
        received := rec;
        requests := requests[1..];
        execs := execs + 1;
      }
    }

    /** At most one message from the host. */
    method Receive(m: Option<Request>, triagedNow: bool, w: Pipe) returns (ok: bool)
      requires Valid()
      modifies this, procs, hub, hub.pool
      ensures ok ==> Valid() && received == old(received) + (if m.Some? then multiset{m.value.id} else multiset{})
      ensures ok ==> requests == old(requests) + if m.Some? && !old(Taken(m.value)) then [m.value] else []
      ensures ok ==> triaged == (old(triaged) || (m.None? && triagedNow)) && leakEnabled == old(leakEnabled)
      ensures ok ==> execs == old(execs) && BusyStay(old(views)) && old(hub.answered) <= hub.answered
      ensures m.None? ==> ok && views == old(views) && hub.answered == old(hub.answered)
      ensures !ok ==> exists i :: 0 <= i < |procs| && procs[i].attempts > MAX_ATTEMPTS
    {
      ok := true;
      if m.Some? {
        ghost var at;
        ok, at := Handle(m.value, w);
      } else if triagedNow {
        triaged := true;
      }
    }

    predicate AllIdle()
      reads procs
    {
      forall i :: 0 <= i < |procs| ==> procs[i].state == Idle
    }

    lemma {:induction false} IdleSeen()
      requires Valid()
      ensures AllIdle() <==> forall i :: 0 <= i < |views| ==> views[i].state == Idle
    {
      assert forall i {:trigger procs[i]} :: 0 <= i < |procs| ==> procs[i].V() == views[i];
      if AllIdle() {
        forall i | 0 <= i < |views| ensures views[i].state == Idle { assert procs[i].state == Idle; }
      }
    }

    /** A message from the host, and the leak check if it is due and nothing runs. */
    method Begin(m: Option<Request>, triagedNow: bool, w: Pipe) returns (ok: bool)
      requires Valid()
      modifies this, procs, hub, hub.pool
      ensures ok ==> Valid() && received == old(received) + (if m.Some? then multiset{m.value.id} else multiset{})
      ensures ok ==> requests == old(requests) + if m.Some? && !old(Taken(m.value)) then [m.value] else []
      ensures ok ==> triaged == (old(triaged) || (m.None? && triagedNow)) && leakEnabled == old(leakEnabled)
      ensures ok ==> BusyStay(old(views)) && old(hub.answered) <= hub.answered
      ensures ok ==> execs == if leakEnabled && triaged && old(execs) >= 2 * |procs|
                                 && (forall i :: 0 <= i < |views| ==> views[i].state == Idle) then 0 else old(execs)
      ensures m.None? ==> ok && views == old(views) && hub.answered == old(hub.answered)
      ensures !ok ==> exists i :: 0 <= i < |procs| && procs[i].attempts > MAX_ATTEMPTS
    {
      ok := Receive(m, triagedNow, w);
      if !ok { return; }
      IdleSeen();
      if LeakCheckDue() && AllIdle() { execs := 0; }
    }

    /** The turns of all processes. */
    method AllTurns(es: seq<Event>, ws: seq<Pipe>) returns (ok: bool, ghost log: seq<Moment>)
      requires Valid() && |es| == |ws| == |procs|
      modifies this, procs, hub, hub.pool
      ensures ok ==> Valid() && received == old(received) && triaged == old(triaged) && leakEnabled == old(leakEnabled)
      ensures ok ==> |log| == |procs|
      ensures ok ==> Round(log, old(views), es, ws, old(requests), leakEnabled && triaged, old(execs))
      ensures ok ==> |views| == |log| && forall j :: 0 <= j < |log| ==> views[j] == log[j].after
      ensures ok ==> Takes(log) <= |old(requests)| && requests == old(requests)[Takes(log)..]
      ensures ok ==> execs == old(execs) + Takes(log) && hub.answered == old(hub.answered) + Told(log)
      ensures !ok ==> exists i :: 0 <= i < |procs| && procs[i].attempts > MAX_ATTEMPTS
    {
      ghost var q, vs, leaks, n0, a0 := requests, views, leakEnabled && triaged, execs, hub.answered;
      log := [];
      ok := true;
      var i := 0;
      while i != |procs|
        invariant 0 <= i <= |procs| && Valid() && received == old(received) && |log| == i && ok
        invariant triaged == old(triaged) && leakEnabled == old(leakEnabled)
        invariant Round(log, vs, es, ws, q, leaks, n0)
        invariant SoFar(views, log, vs) && (i < |procs| ==> views[i] == vs[i])
        invariant Takes(log) <= |q| && requests == q[Takes(log)..] && execs == n0 + Takes(log)
        invariant hub.answered == a0 + Told(log)
        decreases |procs| - i
      {
        ghost var t;
        ghost var front, seen := Front(requests, LeakCheckDue()), views;
        ok, t := Turn(i, es[i], ws[i]);
        if !ok { return; }
        SoFarNext(seen, log, vs, t);
        TurnFollows(t, log, vs, es, ws, q, leaks, n0, front);
        NextTurn(log, vs, es, ws, q, leaks, n0, t);
        NextTold(a0, log, t);
        log := log + [t];
        i := i + 1;
      }
      AllSeen(views, log, vs);
    }

    /**
     A message from the host, then every process in turn. The queue and the count of requests at the
     first turn are q and n, the answers so far a.
     */
    method Pass(m: Option<Request>, triagedNow: bool, w: Pipe, es: seq<Event>, ws: seq<Pipe>)
      returns (ok: bool, ghost q: seq<Request>, ghost n: nat, ghost a: seq<nat>, ghost log: seq<Moment>)
      requires Valid() && |es| == |ws| == |procs|
      modifies this, procs, hub, hub.pool
      ensures ok ==> Valid() && received == old(received) + (if m.Some? then multiset{m.value.id} else multiset{})
      ensures ok ==> q == old(requests) + if m.Some? && !old(Taken(m.value)) then [m.value] else []
      ensures ok ==> |log| == |procs| && |views| == |old(views)| == |log|
      ensures ok ==> n == if leakEnabled && triaged && old(execs) >= 2 * |procs|
                             && (forall i :: 0 <= i < |log| ==> log[i].before.state == Idle) then 0 else old(execs)
      ensures ok ==> Round(log, Befores(log), es, ws, q, leakEnabled && triaged, n)
      ensures ok ==> Takes(log) <= |q| && requests == q[Takes(log)..] && execs == n + Takes(log)
      ensures ok ==> old(hub.answered) <= a && (m.None? ==> a == old(hub.answered)) && hub.answered == a + Told(log)
      ensures ok ==> forall i :: 0 <= i < |log| ==> views[i] == log[i].after
      ensures ok ==> Begins(log, old(views), m)
      ensures !ok ==> exists i :: 0 <= i < |procs| && procs[i].attempts > MAX_ATTEMPTS
    {
      q, n, a, log := [], 0, [], [];
      ok := Begin(m, triagedNow, w);
      if !ok { return; }
      ghost var vs := views;
      q, n, a := requests, execs, hub.answered;
      ok, log := AllTurns(es, ws);
      if !ok { return; }
      BeforesAre(log, vs, es, ws, q, leakEnabled && triaged, n);
    }

    /**
     Loop: nothing received is lost; every process that was executing and replied has its request
     answered; a process that nothing happened to and that had a request, or to which there was
     nothing to give, is as before; requests leave the queue from the front, one for every process
     that takes one in its turn.
     */
    method Loop(m: Option<Request>, triagedNow: bool, w: Pipe, es: seq<Event>, ws: seq<Pipe>)
      returns (ok: bool, ghost q: seq<Request>, ghost n: nat, ghost a: seq<nat>, ghost log: seq<Moment>)
      requires Valid() && |es| == |ws| == |procs|
      modifies this, procs, hub, hub.pool
      ensures ok ==> Valid() && received == old(received) + (if m.Some? then multiset{m.value.id} else multiset{})
      ensures ok ==> 0 <= hub.restarting <= |procs|
      ensures ok ==> q == old(requests) + if m.Some? && !old(Taken(m.value)) then [m.value] else []
      ensures ok ==> |log| == |procs| && |views| == |old(views)| == |log| && Begins(log, old(views), m)
      ensures ok ==> n == if leakEnabled && triaged && old(execs) >= 2 * |procs|
                             && (forall i :: 0 <= i < |log| ==> log[i].before.state == Idle) then 0 else old(execs)
      ensures ok ==> Round(log, Befores(log), es, ws, q, leakEnabled && triaged, n)
      ensures ok ==> Takes(log) <= |q| && requests == q[Takes(log)..] && execs == n + Takes(log)
      ensures ok ==> multiset(old(hub.answered)) + Due(old(views), es, |procs|) <= multiset(hub.answered)
      ensures ok ==> QuietStay(old(views), es, m.None? && old(requests) == [], views)
      ensures !ok ==> exists i :: 0 <= i < |procs| && procs[i].attempts > MAX_ATTEMPTS
    {
      ghost var vs, a0 := views, hub.answered;
      ok, q, n, a, log := Pass(m, triagedNow, w, es, ws);
      if !ok { return; }
      CounterBounds(views, hub.restarting, hub.pool.held, QueueIds(requests), hub.answered, received);
      if hub.restarting < 0 || hub.restarting > |procs| { assert false; }
      AllDue(log, Befores(log), es, ws, q, leakEnabled && triaged, n, vs, m, a0, a, hub.answered);
      QuietOnes(log, Befores(log), es, ws, q, leakEnabled && triaged, n, vs, m, views);
    }
  }

  /** A process that had a request, or any process if there is no message, begins its turn as it was. */
  ghost predicate Begins(log: seq<Moment>, vs: seq<View>, m: Option<Request>) {
    |log| == |vs| && forall i :: 0 <= i < |log| && (m.None? || Busy(vs[i].state)) ==> log[i].before == vs[i]
  }

  /** The requests of the first k processes that replied while executing. */
  function Due(vs: seq<View>, es: seq<Event>, k: nat): multiset<nat>
    requires k <= |vs| == |es|
  {
    if k == 0 then multiset{}
    else Due(vs, es, k - 1) + if vs[k - 1].state == Executing && Replies(es[k - 1]) then Pending(vs[k - 1])
        else multiset{}
  }

  /** Nothing happened to the process, and there was nothing to give to it. */
  ghost predicate QuietStay(vs: seq<View>, es: seq<Event>, nothing: bool, vs': seq<View>) {
    |vs'| == |vs| == |es| &&
    forall i :: 0 <= i < |vs| && Quiet(vs[i], es[i]) && (nothing || Busy(vs[i].state)) ==> vs'[i] == vs[i]
  }

  lemma {:induction false} DueHere(t: Moment, e: Event, w: Pipe, front: Option<Request>)
    requires Follows(t, e, w, front) && t.before.state == Executing && Replies(e)
    ensures Pending(t.before) <= multiset(t.replies)
  {
  }

  lemma {:induction false} ToldNext(log: seq<Moment>, k: nat)
    requires k < |log|
    ensures multiset(Told(log[..k + 1])) == multiset(Told(log[..k])) + multiset(log[k].replies) + multiset(log[k].more)
  {
    assert log[..k + 1][..k] == log[..k] && log[..k + 1][k] == log[k];
    assert Told(log[..k + 1]) == Told(log[..k]) + log[k].replies + log[k].more;
  }

  lemma {:induction false} BagGrows(d: multiset<nat>, b: multiset<nat>, p: multiset<nat>, x: multiset<nat>,
                                    y: multiset<nat>)
    requires d <= b && p <= x
    ensures d + p <= b + x + y
  {
  }

  lemma {:induction false} DueAt(log: seq<Moment>, vs: seq<View>, es: seq<Event>, ws: seq<Pipe>, q: seq<Request>,
                                 leaks: bool, execs: nat, k: nat)
    requires Round(log, vs, es, ws, q, leaks, execs) && k < |log| && |es| > k && log[k].before.state == Executing
             && Replies(es[k])
    ensures Pending(log[k].before) <= multiset(log[k].replies)
  {
    assert Open(true);
    assert TurnAt(log[k], log[..k], vs, es, ws, q, leaks, execs);
    DueHere(log[k], es[k], ws[k], FrontAfter(q, Takes(log[..k]), leaks, execs, |vs|));
  }

  lemma {:induction false} DueTold(log: seq<Moment>, vs: seq<View>, es: seq<Event>, ws: seq<Pipe>, q: seq<Request>,
                                   leaks: bool, execs: nat, vs0: seq<View>, m: Option<Request>, k: nat)
    requires Round(log, vs, es, ws, q, leaks, execs) && |log| == |vs| == |es| && Begins(log, vs0, m) && k <= |log|
    ensures Due(vs0, es, k) <= multiset(Told(log[..k]))
  {
    if k > 0 {
      var t := log[k - 1];
      DueTold(log, vs, es, ws, q, leaks, execs, vs0, m, k - 1);
      ToldNext(log, k - 1);
      var p := if vs0[k - 1].state == Executing && Replies(es[k - 1]) then Pending(vs0[k - 1]) else multiset{};
      if vs0[k - 1].state == Executing && Replies(es[k - 1]) { DueAt(log, vs, es, ws, q, leaks, execs, k - 1); }
      BagGrows(Due(vs0, es, k - 1), multiset(Told(log[..k - 1])), p, multiset(t.replies), multiset(t.more));
    }
  }

  lemma {:induction false} BagPrefix(a0: seq<nat>, a: seq<nat>, b: seq<nat>, d: multiset<nat>)
    requires a0 <= a && d <= multiset(b)
    ensures multiset(a0) + d <= multiset(a + b)
  {
    assert a == a0 + a[|a0|..];
    assert multiset(a + b) == multiset(a0) + multiset(a[|a0|..]) + multiset(b);
  }

  lemma {:induction false} AllDue(log: seq<Moment>, vs: seq<View>, es: seq<Event>, ws: seq<Pipe>, q: seq<Request>,
                                  leaks: bool, execs: nat, vs0: seq<View>, m: Option<Request>, a0: seq<nat>,
                                      a: seq<nat>,
                                  a': seq<nat>)
    requires Round(log, vs, es, ws, q, leaks, execs) && |log| == |vs| == |es| && Begins(log, vs0, m)
    requires a0 <= a && a' == a + Told(log)
    ensures multiset(a0) + Due(vs0, es, |log|) <= multiset(a')
  {
    DueTold(log, vs, es, ws, q, leaks, execs, vs0, m, |log|);
    assert log[..|log|] == log;
    BagPrefix(a0, a, Told(log), Due(vs0, es, |log|));
  }

  lemma {:induction false} QuietHere(t: Moment, e: Event, w: Pipe, front: Option<Request>)
    requires Follows(t, e, w, front) && Quiet(t.before, e) && (front.None? || Busy(t.before.state))
    ensures t.after == t.before
  {
  }

  lemma {:induction false} QuietOnes(log: seq<Moment>, vs: seq<View>, es: seq<Event>, ws: seq<Pipe>, q: seq<Request>,
                                     leaks: bool, execs: nat, vs0: seq<View>, m: Option<Request>, vs': seq<View>)
    requires Round(log, vs, es, ws, q, leaks, execs) && |log| == |vs| == |es| && Begins(log, vs0, m)
    requires |vs'| == |log| && forall i :: 0 <= i < |log| ==> vs'[i] == log[i].after
    ensures QuietStay(vs0, es, m.None? && q == [], vs')
  {
    assert Open(true);
    forall i | 0 <= i < |vs0| && Quiet(vs0[i], es[i]) && ((m.None? && q == []) || Busy(vs0[i].state))
      ensures vs'[i] == vs0[i]
    {
      assert TurnAt(log[i], log[..i], vs, es, ws, q, leaks, execs);
      QuietHere(log[i], es[i], ws[i], FrontAfter(q, Takes(log[..i]), leaks, execs, |vs|));
    }
  }

  /** Processes whose turn has come are as the turn left them. */
  ghost predicate SoFar(views: seq<View>, log: seq<Moment>, vs: seq<View>) {
    forall u: bool {:trigger Open(u)} :: Open(u) ==>
      && |log| <= |vs| == |views|
      && forall j :: 0 <= j < |views| ==> views[j] == if j < |log| then log[j].after else vs[j]
  }

  lemma {:induction false} SoFarNext(views: seq<View>, log: seq<Moment>, vs: seq<View>, t: Moment)
    requires SoFar(views, log, vs) && |log| < |vs| && |views| == |vs|
    ensures SoFar(views[|log| := t.after], log + [t], vs)
    ensures |log| + 1 < |vs| ==> views[|log| := t.after][|log| + 1] == vs[|log| + 1]
  {
    assert Open(true);
  }

  lemma {:induction false} AllSeen(views: seq<View>, log: seq<Moment>, vs: seq<View>)
    requires SoFar(views, log, vs) && |log| == |vs|
    ensures |views| == |log| && forall j :: 0 <= j < |log| ==> views[j] == log[j].after
  {
    assert Open(true);
  }

  function Befores(log: seq<Moment>): (r: seq<View>)
    ensures |r| == |log| && forall i :: 0 <= i < |log| ==> r[i] == log[i].before
  {
    seq(|log|, i requires 0 <= i < |log| => log[i].before)
  }

  lemma {:induction false} BeforesAre(log: seq<Moment>, vs: seq<View>, es: seq<Event>, ws: seq<Pipe>, q: seq<Request>,
                                      leaks: bool, execs: nat)
    requires Round(log, vs, es, ws, q, leaks, execs) && |log| == |vs|
    ensures Befores(log) == vs
  {
    assert Open(true);
  }

  /** Answers are added at the end. */
  lemma {:induction false} RestartedMore(v: View, failed: bool, v': View, a': seq<nat>, a: seq<nat>)
    requires Restarted(v, failed, v', a', a)
    ensures |a| <= |a'| && a' == a + a'[|a|..] && Restarted(v, failed, v', a'[|a|..], [])
  {
  }

  lemma {:induction false} WrittenMore(v: View, w: Pipe, v': View, a': seq<nat>, a: seq<nat>)
    requires Written(v, w, v', a', a)
    ensures |a| <= |a'| && a' == a + a'[|a|..] && Written(v, w, v', a'[|a|..], [])
  {
    if !w.wrote { RestartedMore(v, w.failed, v', a', a); }
  }

  lemma {:induction false} SentMore(v: View, w: Pipe, v': View, a': seq<nat>, a: seq<nat>) returns (more: seq<nat>)
    requires Sent(v, w, v', a', a)
    ensures a' == a + more && Sent(v, w, v', more, [])
  {
    assert Open(true);
    WrittenMore(v, w, v', a', a);
    more := a'[|a|..];
  }

  lemma {:induction false} HappenedMore(v: View, e: Event, v': View, a': seq<nat>, a: seq<nat>)
    returns (more: seq<nat>)
    requires Happened(v, e, v', a', a)
    ensures a' == a + more && Happened(v, e, v', more, [])
  {
    assert Open(true);
    if Quiet(v, e) {
      more := [];
    } else if !(Replies(e) && Busy(v.state)) {
      RestartedMore(v, e.pipe.failed, v', a', a);
      more := a'[|a|..];
    } else if v.state == Handshaking {
      WrittenMore(View(v.id, Executing, v.pending), e.pipe, v', a', a);
      more := a'[|a|..];
    } else {
      more := [v.pending.value.id];
    }
  }

  lemma {:induction false} Queued(vs: seq<View>, r: int, h: set<nat>, q: seq<Request>, a: seq<nat>, rec: multiset<nat>,
                                  m: Request)
    requires Balanced(vs, r, h, QueueIds(q), a, rec)
    ensures Balanced(vs, r, h, QueueIds(q + [m]), a, rec + multiset{m.id})
  {
    assert Open(true);
    QueueSnoc(q, m);
    var p, b := TotalPending(vs), multiset(a);
    assert QueueIds(q) + multiset{m.id} + p + b == QueueIds(q) + p + b + multiset{m.id};
  }

  /** The front of the queue has been taken: it is pending or answered now. */
  lemma {:induction false} Popped(vs: seq<View>, r: int, h: set<nat>, q: seq<Request>, a: seq<nat>, rec: multiset<nat>)
    requires |q| > 0 && Balanced(vs, r, h, QueueIds(q), a, rec + multiset{q[0].id})
    ensures Balanced(vs, r, h, QueueIds(q[1..]), a, rec)
  {
    assert Open(true);
    var p, b, x, rest := TotalPending(vs), multiset(a), multiset{q[0].id}, QueueIds(q[1..]);
    assert (x + rest) + p + b == (rest + p + b) + x;
    forall k ensures (rest + p + b)[k] == rec[k] {
      assert ((rest + p + b) + x)[k] == (rec + x)[k];
    }
  }

  lemma {:induction false} CounterBounds(vs: seq<View>, r: int, h: set<nat>, q: multiset<nat>, a: seq<nat>,
                                         rec: multiset<nat>)
    requires Balanced(vs, r, h, q, a, rec)
    ensures 0 <= r <= |vs|
  {
    assert Open(true);
    ShakingBounds(vs);
  }

  lemma {:induction false} BalancedNew(vs: seq<View>, v: View, held: set<nat>)
    requires Balanced(vs, 0, held, multiset{}, [], multiset{})
    requires v.id !in held && v.state == Started && v.pending.None?
    ensures Balanced(vs + [v], 0, held + {v.id}, multiset{}, [], multiset{})
  {
    assert Open(true);
    assert (vs + [v])[..|vs|] == vs;
    assert multiset(held + {v.id}) == multiset(held) + multiset{v.id};
  }
}
