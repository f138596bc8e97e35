/**
 Test execution on worker threads (executor/executor.cc with the events of executor/common_linux.h).
 The main thread and the workers share the ready and done events of 32 threads; workers may take any
 number of steps before each access of the main thread to shared state.
 */
module Threads {
  import opened Basics

  const MAX_THREADS: nat := 32
  const MAX_CALLS: nat := 64

  /** Where a worker is: worker_thread and the two halves of event_set. */
  datatype Pc = Absent | Waiting | Seen | Running | Setting | Storing

  /** The last field says that the call has been executed. */
  datatype Thread = Thread(created: bool, ready: bool, done: bool, executing: bool, call: nat, pc: Pc, ran: bool)

  const UNUSED := Thread(false, false, false, false, 0, Absent, false)

  /** What holds of a thread whenever the main thread is not in the middle of scheduling on it. */
  predicate Calm(t: Thread, threaded: bool) {
    if !t.created then !t.ready && !t.done && !t.executing && t.pc == Absent
    else if !t.executing then t.done && !t.ready && t.pc == (if threaded then Waiting else Absent)
    else if !threaded then t.done && !t.ready && t.pc == Absent && t.ran
    else
      || (t.ready && !t.done && (t.pc == Waiting || t.pc == Seen) && !t.ran)
      || (!t.ready && !t.done && t.pc == Running && !t.ran)
      || (!t.ready && !t.done && (t.pc == Setting || t.pc == Storing) && t.ran)
      || (!t.ready && t.done && t.pc == Waiting && t.ran)
  }

  /** In the middle of scheduling: done is reset, ready is not yet set, the worker still waits. */
  predicate Armed(t: Thread, threaded: bool) {
    t.created && !t.ready && !t.done && t.pc == (if threaded then Waiting else Absent)
  }

  /** One step of the worker; a call may take arbitrarily long. */
  function WorkerStep(t: Thread, finished: bool): Thread
    requires t.pc == Setting ==> !t.done
  {
    match t.pc
    case Absent => t
    case Waiting => if t.ready then t.(pc := Seen) else t
    case Seen => t.(ready := false, pc := Running)
    case Running => if finished then t.(pc := Setting, ran := true) else t
    case Setting => t.(pc := Storing)
    case Storing => t.(done := true, pc := Waiting)
  }

  /** What the main thread owns is the same. */
  predicate SameOwned(t: Thread, t': Thread) {
    t'.created == t.created && t'.executing == t.executing && t'.call == t.call
  }

  /** A worker step keeps the thread calm or armed, and an event that is set stays set for the main thread. */
  lemma {:induction false} StepKeeps(t: Thread, threaded: bool, finished: bool)
    requires Calm(t, threaded) || Armed(t, threaded)
    ensures t.pc == Setting ==> !t.done
    ensures var t' := WorkerStep(t, finished);
            && (Calm(t, threaded) ==> Calm(t', threaded)) && (Armed(t, threaded) ==> t' == t)
            && SameOwned(t, t') && (t.done ==> t'.done)
  {
  }

  /** A call whose done event is set has been executed. */
  lemma {:induction false} DoneHasRun(t: Thread, threaded: bool)
    requires Calm(t, threaded) && t.executing && t.done
    ensures t.ran
  {
  }

  /** No thread is ready and done at once. */
  lemma {:induction false} DoneNotReady(t: Thread, threaded: bool)
    requires Calm(t, threaded) || Armed(t, threaded)
    ensures !(t.done && t.ready)
  {
  }

  ghost predicate AllCalm(ts: seq<Thread>, threaded: bool) {
    forall i :: 0 <= i < |ts| ==> Calm(ts[i], threaded)
  }

  /** Only workers have moved from ts to ts'. */
  ghost predicate Moved(ts: seq<Thread>, ts': seq<Thread>, threaded: bool) {
    && |ts'| == |ts|
    && forall i {:trigger ts'[i]} :: 0 <= i < |ts'| ==>
         && (Calm(ts[i], threaded) ==> Calm(ts'[i], threaded))
         && (Armed(ts[i], threaded) ==> ts'[i] == ts[i])
         && SameOwned(ts[i], ts'[i]) && (ts[i].done ==> ts'[i].done)
  }

  lemma {:induction false} MoveOne(ts0: seq<Thread>, ts: seq<Thread>, threaded: bool, i: nat, finished: bool)
    requires Moved(ts0, ts, threaded) && i < |ts| && (Calm(ts0[i], threaded) || Armed(ts0[i], threaded))
    ensures ts[i].pc == Setting ==> !ts[i].done
    ensures Moved(ts0, ts[i := WorkerStep(ts[i], finished)], threaded)
  {
    StepKeeps(ts[i], threaded, finished);
  }

  lemma {:induction false} MovedTwice(ts: seq<Thread>, ts': seq<Thread>, ts'': seq<Thread>, threaded: bool)
    requires Moved(ts, ts', threaded) && Moved(ts', ts'', threaded)
    ensures Moved(ts, ts'', threaded)
  {
  }

  lemma {:induction false} MovedCalm(ts: seq<Thread>, ts': seq<Thread>, threaded: bool)
    requires Moved(ts, ts', threaded) && AllCalm(ts, threaded)
    ensures AllCalm(ts', threaded)
  {
  }

  // ----- counting -----

  function Count(ts: seq<Thread>): nat {
    if |ts| == 0 then 0 else (if ts[0].executing then 1 else 0) + Count(ts[1..])
  }

  function Own(t: Thread): multiset<nat> { if t.executing then multiset{t.call} else multiset{} }

  /** The calls that are under way. */
  function Bag(ts: seq<Thread>): multiset<nat> {
    if |ts| == 0 then multiset{} else Own(ts[0]) + Bag(ts[1..])
  }

  /** The calls 0, ..., n - 1, each once. */
  function UpTo(n: nat): multiset<nat> {
    if n == 0 then multiset{} else UpTo(n - 1) + multiset{n - 1}
  }

  ghost predicate Books(ts: seq<Thread>, running: int, outputs: seq<nat>, n: nat) {
    && running == Count(ts)
    && multiset(outputs) + Bag(ts) == UpTo(n)
    && |outputs| + Count(ts) == n
  }

  /** The running counter is exact, and every scheduled call is under way or has one output. */
  ghost predicate Tally(ts: seq<Thread>, running: int, outputs: seq<nat>, n: nat) {
    forall u: bool {:trigger Open(u)} :: Open(u) ==> Books(ts, running, outputs, n)
  }

  lemma {:induction false} SameSums(ts: seq<Thread>, ts': seq<Thread>)
    requires |ts| == |ts'| && forall i :: 0 <= i < |ts| ==> SameOwned(ts[i], ts'[i])
    ensures Count(ts') == Count(ts) && Bag(ts') == Bag(ts)
  {
    if |ts| > 0 {
      assert SameOwned(ts[0], ts'[0]);
      SameSums(ts[1..], ts'[1..]);
    }
  }

  lemma {:induction false} CountUpdate(ts: seq<Thread>, i: nat, t: Thread)
    requires i < |ts|
    ensures Count(ts[i := t]) == Count(ts) - (if ts[i].executing then 1 else 0) + (if t.executing then 1 else 0)
  {
    if i == 0 {
      assert ts[i := t][1..] == ts[1..];
    } else {
      assert ts[i := t][1..] == ts[1..][i - 1 := t];
      CountUpdate(ts[1..], i - 1, t);
    }
  }

  lemma {:induction false} BagUpdate(ts: seq<Thread>, i: nat, t: Thread)
    requires i < |ts|
    ensures Bag(ts[i := t]) + Own(ts[i]) == Bag(ts) + Own(t)
  {
    if i == 0 {
      assert ts[i := t][1..] == ts[1..];
      var b, x, y := Bag(ts[1..]), Own(ts[0]), Own(t);
      assert (y + b) + x == (x + b) + y;
    } else {
      assert ts[i := t][1..] == ts[1..][i - 1 := t];
      BagUpdate(ts[1..], i - 1, t);
      Exchange(Own(ts[0]), Bag(ts[1..]), Bag(ts[1..][i - 1 := t]), Own(ts[i]), Own(t));
    }
  }

  lemma {:induction false} Exchange(c: multiset<nat>, a: multiset<nat>, a': multiset<nat>, x: multiset<nat>,
                                    y: multiset<nat>)
    requires a' + x == a + y
    ensures (c + a') + x == (c + a) + y
  {
    assert (c + a') + x == c + (a' + x);
    assert (c + a) + y == c + (a + y);
  }

  lemma {:induction false} TallySame(ts: seq<Thread>, ts': seq<Thread>, running: int, outputs: seq<nat>, n: nat)
    requires Tally(ts, running, outputs, n)
    requires |ts| == |ts'| && forall i {:trigger ts'[i]} :: 0 <= i < |ts'| ==> SameOwned(ts[i], ts'[i])
    ensures Tally(ts', running, outputs, n)
  {
    assert Open(true);
    SameSums(ts, ts');
  }

  lemma {:induction false} TallyFinish(ts: seq<Thread>, i: nat, t: Thread, running: int, outputs: seq<nat>, n: nat)
    requires i < |ts| && ts[i].executing && !t.executing && Tally(ts, running, outputs, n)
    ensures Tally(ts[i := t], running - 1, outputs + [ts[i].call], n)
    ensures running > 0 && |outputs| < n
  {
    assert Open(true);
    CountUpdate(ts, i, t);
    BagUpdate(ts, i, t);
    var x := multiset{ts[i].call};
    assert Bag(ts[i := t]) + x == Bag(ts) + multiset{};
    assert multiset(outputs + [ts[i].call]) == multiset(outputs) + x;
    assert multiset(outputs) + x + Bag(ts[i := t]) == multiset(outputs) + (Bag(ts[i := t]) + x);
  }

  lemma {:induction false} TallyStart(ts: seq<Thread>, i: nat, t: Thread, running: int, outputs: seq<nat>, n: nat)
    requires i < |ts| && !ts[i].executing && t.executing && t.call == n && Tally(ts, running, outputs, n)
    ensures Tally(ts[i := t], running + 1, outputs, n + 1)
  {
    assert Open(true);
    CountUpdate(ts, i, t);
    BagUpdate(ts, i, t);
    assert Bag(ts[i := t]) + multiset{} == Bag(ts) + multiset{n};
    assert multiset(outputs) + (Bag(ts) + multiset{n}) == (multiset(outputs) + Bag(ts)) + multiset{n};
  }

  // ----- the code -----

  datatype Outcome = Done | OutOfThreads | TooManyOutputs

  /** An instruction of the program, as far as scheduling is concerned. */
  datatype Step = Call(async: bool) | Config

  function Calls(prog: seq<Step>): nat {
    if |prog| == 0 then 0 else Calls(prog[..|prog| - 1]) + (if prog[|prog| - 1].Call? then 1 else 0)
  }

  class Executor {
    const threaded: bool
    var threads: seq<Thread>
    var running: int
    var outputs: seq<nat>
    var finished: seq<bool>
    ghost var scheduled: nat

    constructor (threaded: bool)
      ensures this.threaded == threaded && Valid() && scheduled == 0 && outputs == []
    {
      this.threaded := threaded;
      threads, running, outputs, finished, scheduled := seq(MAX_THREADS, _ => UNUSED), 0, [], [], 0;
      new;
      NoneRunning(threads);
    }

    ghost predicate Valid()
      reads this
    {
      && |threads| == MAX_THREADS && Tally(threads, running, outputs, scheduled) && AllCalm(threads, threaded)
      && AllFinished(finished, |outputs|)
    }

    /** Workers move: any number of steps of any of them. */
    method Others()
      requires |threads| == MAX_THREADS
      requires forall i :: 0 <= i < |threads| ==> Calm(threads[i], threaded) || Armed(threads[i], threaded)
      modifies this`threads
      ensures Moved(old(threads), threads, threaded)
    {
      var n: int := *;
      ghost var ts := threads;
      while n > 0
        invariant Moved(ts, threads, threaded)
      {
        var i: int := *;
        var finished: bool := *;
        if 0 <= i < |threads| {
          MoveOne(ts, threads, threaded, i, finished);
          if threads[i].pc == Setting && threads[i].done { assert false; }
          threads := threads[i := WorkerStep(threads[i], finished)];
        }
        n := n - 1;
      }
    }

    /** The same between operations of the main thread. */
    method Yield()
      requires Valid()
      modifies this`threads
      ensures Valid() && Moved(old(threads), threads, threaded)
    {
      Others();
      MovedCalm(old(threads), threads, threaded);
      TallySame(old(threads), threads, running, outputs, scheduled);
    }

    /** write_call_output for a call that is under way; false if the output has no room. */
    method WriteOutput(i: nat, fin: bool) returns (ok: bool)
      requires i < |threads|
      modifies this`outputs, this`finished
      ensures ok <==> old(|outputs|) < MAX_CALLS
      ensures outputs == if ok then old(outputs) + [threads[i].call] else old(outputs)
      ensures finished == if ok then old(finished) + [fin] else old(finished)
    {
      if |outputs| >= MAX_CALLS { return false; }
      outputs, finished := outputs + [threads[i].call], finished + [fin];
      return true;
    }

    /** The end of handle_completion: the output is written and the thread is free again. */
    method Retire(i: nat) returns (ok: bool)
      requires Valid() && i < |threads| && threads[i].executing && threads[i].done
      modifies this`threads, this`running, this`outputs, this`finished
      ensures !ok ==> scheduled > MAX_CALLS
      ensures old(threads[i].ran)
      ensures ok ==> Valid() && threads == old(threads)[i := old(threads[i]).(executing := false)]
      ensures ok ==> outputs == old(outputs) + [old(threads[i].call)]
    {
      ghost var r := running;
      ghost var ts := threads[i := threads[i].(executing := false)];
      TallyFinish(threads, i, ts[i], running, outputs, scheduled);
      RetireKeepsCalm(threads, threaded, i);
      DoneHasRun(threads[i], threaded);
      ok := WriteOutput(i, true);
      if !ok { return; }
      threads := threads[i := threads[i].(executing := false)];
      running := running - 1;
      if running < 0 { assert false; }
    }

    /** handle_completion; false if the output has no room. */
    method HandleCompletion(i: nat) returns (ok: bool)
      requires Valid() && i < |threads| && threads[i].executing && threads[i].done
      modifies this`threads, this`running, this`outputs, this`finished
      ensures !ok ==> scheduled > MAX_CALLS
      ensures ok ==> Valid() && Idle(threads[i]) && Completed(old(threads), threads, i)
      ensures ok ==> outputs == old(outputs) + [old(threads[i].call)]
    {
      Yield();
      if threads[i].ready || !threads[i].done || !threads[i].executing { assert false; }
      ok := Retire(i);
    }

    /** thread_create */
    method Create(i: nat)
      requires Valid() && i < |threads| && !threads[i].created
      modifies this`threads
      ensures Valid() && threads == old(threads)[i := threads[i]] && Idle(threads[i])
    {
      var t := Thread(true, false, true, false, threads[i].call, if threaded then Waiting else Absent, false);
      TallyReplace(threads, i, t, running, outputs, scheduled);
      CalmReplace(threads, i, t, threaded);
      threads := threads[i := t];
    }

    /** The search of schedule_call: the first thread that is done, completed first if need be. */
    method Spare() returns (r: Outcome, i: nat)
      requires Valid()
      modifies this`threads, this`running, this`outputs, this`finished
      ensures r == TooManyOutputs ==> scheduled > MAX_CALLS
      ensures r == OutOfThreads ==> threaded && Valid() && forall j :: 0 <= j < |threads| ==> threads[j].executing
      ensures r == Done ==> Valid() && i < |threads| && Idle(threads[i]) && (!threaded ==> i == 0)
      ensures r == Done ==> old(outputs) <= outputs
    {
      i := 0;
      while i < MAX_THREADS
        invariant 0 <= i <= MAX_THREADS && Valid() && (!threaded ==> i == 0) && outputs == old(outputs)
        invariant forall j {:trigger threads[j]} :: 0 <= j < i ==> threads[j].executing
      {
        Yield();
        if !threads[i].created { Create(i); }
        Yield();
        if threads[i].done {
          r := Done;
          if threads[i].executing {
            var ok := HandleCompletion(i);
            if !ok { r := TooManyOutputs; }
          }
          return;
        }
        i := i + 1;
      }
      r := OutOfThreads;
    }

    /** schedule_call on an idle thread: done is reset. */
    method Disarm(i: nat)
      requires Valid() && i < |threads| && Idle(threads[i])
      modifies this`threads
      ensures |threads| == MAX_THREADS && CalmBut(threads, threaded, i) && Armed(threads[i], threaded)
      ensures !threads[i].executing && Tally(threads, running, outputs, scheduled)
    {
      Yield();
      if threads[i].ready || !threads[i].done || threads[i].executing { assert false; }
      ghost var ts0 := threads;
      threads := threads[i := threads[i].(done := false)];
      ArmStep(ts0, threads, threaded, i, running, outputs, scheduled);
    }

    /** The call is entered, up to the point where ready is set. */
    method Arm(i: nat, call: nat)
      requires |threads| == MAX_THREADS && i < |threads| && CalmBut(threads, threaded, i) && Armed(threads[i], threaded)
      requires !threads[i].executing && Tally(threads, running, outputs, scheduled) && call == scheduled
      modifies this`threads
      ensures |threads| == MAX_THREADS && CalmBut(threads, threaded, i)
      ensures Armed(threads[i], threaded) && threads[i].executing && threads[i].call == call && !threads[i].ran
      ensures Tally(threads, running + 1, outputs, scheduled + 1)
    {
      ghost var ts1 := threads;
      Others();
      ArmedMoved(ts1, threads, threaded, i, running, outputs, scheduled);
      TallyStart(threads, i, threads[i].(executing := true, call := call, ran := false), running, outputs, scheduled);
      threads := threads[i := threads[i].(executing := true, call := call, ran := false)];
    }

    /** event_set(&th->ready) */
    method Fire(i: nat, ghost r: int, ghost n: nat)
      requires |threads| == MAX_THREADS && i < |threads| && CalmBut(threads, threaded, i)
      requires Armed(threads[i], threaded) && threads[i].executing && !threads[i].ran && Tally(threads, r, outputs, n)
      modifies this`threads
      ensures |threads| == MAX_THREADS && CalmBut(threads, threaded, i)
      ensures Launched(threads[i], threaded) && Tally(threads, r, outputs, n) && threads[i].call == old(threads[i].call)
    {
      ghost var ts := threads;
      Others();
      if threads[i].ready { assert false; }
      ghost var mid := threads;
      Others();
      MovedTwice(ts, mid, threads, threaded);
      ArmedMoved(ts, threads, threaded, i, r, outputs, n);
      TallyReplace(threads, i, threads[i].(ready := true), r, outputs, n);
      threads := threads[i := threads[i].(ready := true)];
    }

    /** The rest of schedule_call, on the thread that was found. */
    method Launch(i: nat, call: nat)
      requires Valid() && i < |threads| && Idle(threads[i]) && call == scheduled
      modifies this`threads, this`running, this`scheduled
      ensures |threads| == MAX_THREADS && CalmBut(threads, threaded, i) && Launched(threads[i], threaded)
      ensures scheduled == old(scheduled) + 1 && Tally(threads, running, outputs, scheduled) && threads[i].call == call
    {
      Disarm(i);
      Arm(i, call);
      ghost var r, n := running + 1, scheduled + 1;
      Fire(i, r, n);
      running := running + 1;
      scheduled := n;
      assert running == r;
    }

    /** schedule_call */
    method Schedule(call: nat) returns (r: Outcome, i: nat)
      requires Valid() && call == scheduled
      modifies this
      ensures r == TooManyOutputs ==> old(scheduled) > MAX_CALLS
      ensures r == OutOfThreads ==> threaded && forall j :: 0 <= j < |threads| ==> threads[j].executing
      ensures r == Done ==> |threads| == MAX_THREADS && i < |threads| && (!threaded ==> i == 0)
      ensures r == Done ==> CalmBut(threads, threaded, i) && Launched(threads[i], threaded) && threads[i].call == call
      ensures r == Done ==> scheduled == old(scheduled) + 1 && Tally(threads, running, outputs, scheduled)
      ensures r == Done ==> old(outputs) <= outputs && AllFinished(finished, |outputs|)
    {
      r, i := Spare();
      if r == Done { Launch(i, call); }
    }

    /** Completes every call that is done by now. */
    method Sweep() returns (ok: bool)
      requires Valid()
      modifies this`threads, this`running, this`outputs, this`finished
      ensures ok ==> Valid() && Swept(old(threads), threads, MAX_THREADS) && old(outputs) <= outputs
      ensures !ok ==> scheduled > MAX_CALLS
    {
      var i := 0;
      while i < MAX_THREADS
        invariant 0 <= i <= MAX_THREADS && Valid() && Swept(old(threads), threads, i) && old(outputs) <= outputs
      {
        ghost var ts := threads;
        Yield();
        SweptMoved(old(threads), ts, threads, i, threaded);
        if threads[i].executing && threads[i].done {
          ts := threads;
          ok := HandleCompletion(i);
          if !ok { return; }
          SweptCompleted(old(threads), ts, threads, i);
        } else {
          SweptNext(old(threads), threads, i);
        }
        i := i + 1;
      }
      return true;
    }

    /** Worker i gets its call done, if it has one. */
    method FinishWorker(i: nat)
      requires Valid() && i < |threads|
      modifies this`threads
      ensures Valid() && Moved(old(threads), threads, threaded) && (threads[i].executing ==> threads[i].done)
    {
      Yield();
      while threads[i].executing && !threads[i].done
        invariant Valid() && Moved(old(threads), threads, threaded)
        decreases StepsLeft(threads[i])
      {
        ghost var ts := threads;
        assert Calm(threads[i], threaded);
        MoveOne(old(threads), threads, threaded, i, true);
        threads := threads[i := WorkerStep(threads[i], true)];
        MovedCalm(old(threads), threads, threaded);
        TallySame(ts, threads, running, outputs, scheduled);
      }
    }

    /** event_timedwait: true if the event is set in time; a timely call gets done. */
    method TimedWait(i: nat, timely: bool) returns (isSet: bool)
      requires Valid() && i < |threads| && threads[i].executing
      modifies this`threads
      ensures Valid() && Moved(old(threads), threads, threaded) && (isSet <==> threads[i].done) && (timely ==> isSet)
    {
      Yield();
      ghost var ts := threads;
      if timely {
        FinishWorker(i);
        MovedTwice(old(threads), ts, threads, threaded);
      }
      return threads[i].done;
    }

    /** sleep_ms, in which all workers may get their calls done. */
    method Sleep(all: bool)
      requires Valid()
      modifies this`threads
      ensures Valid() && Moved(old(threads), threads, threaded)
      ensures all ==> forall j :: 0 <= j < |threads| && threads[j].executing ==> threads[j].done
    {
      Yield();
      if all {
        var i := 0;
        while i < MAX_THREADS
          invariant 0 <= i <= MAX_THREADS && Valid() && Moved(old(threads), threads, threaded)
          invariant forall j {:trigger threads[j]} :: 0 <= j < i && threads[j].executing ==> threads[j].done
        {
          ghost var ts := threads;
          FinishWorker(i);
          MovedTwice(old(threads), ts, threads, threaded);
          i := i + 1;
        }
      }
    }

    /**
     kconfuzz_wait_for_running_calls, and the wait at the end of execute_one: until nothing runs or time
     is up; if there is time enough, all workers get their calls done in it.
     */
    method WaitForRunning(enough: bool) returns (ok: bool)
      requires Valid()
      modifies this`threads, this`running, this`outputs, this`finished
      ensures ok ==> Valid() && old(outputs) <= outputs && (enough ==> running == 0)
      ensures !ok ==> scheduled > MAX_CALLS
    {
      var rounds: int := *;
      if rounds < 0 { rounds := 0; }
      if enough { rounds := rounds + 1; }
      while running > 0 && rounds > 0
        invariant Valid() && old(outputs) <= outputs && rounds >= 0
        invariant enough && rounds == 0 ==> running == 0
        decreases rounds
      {
        Sleep(enough && rounds == 1);
        ghost var ts := threads;
        ok := Sweep();
        if !ok { return; }
        if enough && rounds == 1 { SweptAll(ts, threads, running, outputs, scheduled); }
        rounds := rounds - 1;
      }
      NotNegative(threads, running, outputs, scheduled);
      return true;
    }

    /** A synchronous call in threaded mode: it completes in time or not. */
    method Await(i: nat, timely: bool) returns (ok: bool)
      requires Valid() && i < |threads| && threads[i].executing
      modifies this`threads, this`running, this`outputs, this`finished
      ensures ok ==> Valid() && old(outputs) <= outputs && (timely ==> old(threads[i].call) in outputs)
      ensures !ok ==> scheduled > MAX_CALLS
    {
      var isSet := TimedWait(i, timely);
      if isSet {
        ok := HandleCompletion(i);
        if !ok { return; }
        assert outputs[|outputs| - 1] == old(threads[i].call);
      }
      ok := Sweep();
    }

    /** A call without threads: the main thread executes it itself. */
    method Direct(i: nat) returns (ok: bool)
      requires !threaded && |threads| == MAX_THREADS && i == 0
      requires CalmBut(threads, threaded, i) && Launched(threads[i], threaded)
               && Tally(threads, running, outputs, scheduled) && AllFinished(finished, |outputs|)
      modifies this`threads, this`running, this`outputs, this`finished
      ensures ok ==> Valid() && outputs == old(outputs) + [old(threads[i].call)]
      ensures !ok ==> scheduled > MAX_CALLS
    {
      if i != 0 { assert false; }
      var t := threads[i].(ready := false);
      if t.done { assert false; }
      t := t.(done := true, ran := true);
      TallyReplace(threads, i, t, running, outputs, scheduled);
      CalmReplace(threads, i, t, threaded);
      threads := threads[i := t];
      ok := HandleCompletion(i);
    }

    /** One call of execute_one; a call that is waited for and done in time has its output then. */
    method RunCall(call: nat, async: bool, timely: bool) returns (r: Outcome)
      requires Valid() && call == scheduled
      modifies this
      ensures r == Done ==> Valid() && scheduled == old(scheduled) + 1 && old(outputs) <= outputs
      ensures r == Done && (!threaded || (!async && timely)) ==> call in outputs
      ensures r == OutOfThreads ==> threaded && forall j :: 0 <= j < |threads| ==> threads[j].executing
      ensures r == TooManyOutputs ==> old(scheduled) >= MAX_CALLS
    {
      var i;
      r, i := Schedule(call);
      if r != Done { return; }
      var ok := true;
      if threaded {
        CalmReplace(threads, i, threads[i], threaded);
        assert threads[i := threads[i]] == threads;
        if !async { ok := Await(i, timely); }
      } else {
        ok := Direct(i);
      }
      if !ok { r := TooManyOutputs; }
    }

    /** Outputs for the calls that never finished. */
    method WriteUnfinished() returns (ok: bool)
      requires Valid()
      modifies this`outputs, this`finished
      ensures ok ==> multiset(outputs) == UpTo(scheduled) && old(outputs) <= outputs
      ensures ok ==> FirstFinished(finished, old(|outputs|), |outputs|)
      ensures ok && running == 0 ==> outputs == old(outputs)
      ensures !ok ==> scheduled > MAX_CALLS
    {
      if running > 0 {
        ok := WriteRunning();
      } else {
        NothingLeft(threads, running, outputs, scheduled);
        ok := true;
      }
    }

    method WriteRunning() returns (ok: bool)
      requires Valid()
      modifies this`outputs, this`finished
      ensures ok ==> multiset(outputs) == UpTo(scheduled) && old(outputs) <= outputs
      ensures ok ==> FirstFinished(finished, old(|outputs|), |outputs|)
      ensures !ok ==> scheduled > MAX_CALLS
    {
      UnfinishedStart(threads, running, outputs, scheduled);
      ghost var n := |outputs|;
      var i := 0;
      while i < MAX_THREADS
        invariant 0 <= i <= MAX_THREADS && Unfinished(threads, i, outputs, scheduled)
        invariant old(outputs) <= outputs && FirstFinished(finished, n, |outputs|)
      {
        UnfinishedNext(threads, i, outputs, scheduled);
        if threads[i].executing {
          FirstStill(finished, n, |outputs|);
          ok := WriteOutput(i, false);
          if !ok { return; }
        }
        i := i + 1;
      }
      UnfinishedEnd(threads, outputs, scheduled);
      return true;
    }

    /** Where execute_one is after pos instructions. */
    ghost predicate Reached(prog: seq<Step>, timely: seq<bool>, pos: nat, marks: seq<nat>)
      requires pos <= |prog|
      reads this
    {
      && Valid() && scheduled == Calls(prog[..pos])
      && |marks| == pos && Marked(prog, timely, threaded, marks, outputs)
      && (!threaded ==> Ordered(outputs, scheduled))
    }

    /** One instruction of execute_one: a config action waits for the calls before it. */
    method Instruction(prog: seq<Step>, timely: seq<bool>, pos: nat, call: nat, ghost marks: seq<nat>)
      returns (r: Outcome, ghost marks': seq<nat>)
      requires pos < |prog| == |timely| && Reached(prog, timely, pos, marks) && call == scheduled
      modifies this
      ensures r == Done ==> Reached(prog, timely, pos + 1, marks')
      ensures r == OutOfThreads ==> threaded && forall j :: 0 <= j < |threads| ==> threads[j].executing
      ensures r == TooManyOutputs ==> Calls(prog) > MAX_CALLS
    {
      CallsGrow(prog, pos);
      CallsGrow(prog, pos + 1);
      CallsNext(prog, pos);
      ghost var before := outputs;
      marks' := marks;
      if prog[pos].Config? {
        var ok := WaitForRunning(timely[pos]);
        if !ok { return TooManyOutputs, marks; }
        AllOut(threads, running, outputs, scheduled);
        if !threaded { OrderedStays(threads, running, before, outputs, scheduled); }
      } else {
        r := RunCall(call, prog[pos].async, timely[pos]);
        if r != Done { return; }
        if !threaded { OrderedNext(threads, running, before, outputs, scheduled); }
      }
      MarkedNext(prog, timely, threaded, marks, before, outputs, pos);
      r, marks' := Done, marks + [|outputs|];
    }

    /**
     execute_one: in the end every call of the program has exactly one output. A call that is waited for
     and done in time has its output before the next instruction; a config action that is given time
     enough finds all calls before it finished; without threads the outputs come in program order.
     The first n outputs are of finished calls; marks[p] is the number of outputs after instruction p.
     */
    method ExecuteOne(prog: seq<Step>, timely: seq<bool>, enough: bool)
      returns (r: Outcome, ghost n: nat, ghost marks: seq<nat>)
      requires Valid() && scheduled == 0 && |timely| == |prog|
      modifies this
      ensures r == Done ==> multiset(outputs) == UpTo(Calls(prog)) && |outputs| == Calls(prog)
      ensures r == Done ==> n <= |outputs| && FirstFinished(finished, n, |outputs|)
      ensures r == Done && (enough || !threaded) ==> n == |outputs|
      ensures r == Done ==> |marks| == |prog| && Marked(prog, timely, threaded, marks, outputs[..n])
      ensures r == Done && !threaded ==> forall k :: 0 <= k < |outputs| ==> outputs[k] == k
      ensures r == OutOfThreads ==> threaded && forall j :: 0 <= j < |threads| ==> threads[j].executing
      ensures r == TooManyOutputs ==> Calls(prog) > MAX_CALLS
    {
      n, marks := 0, [];
      NoOutputs(threads, running, outputs);
      var pos := 0;
      var call := 0;
      assert prog[..0] == [];
      while pos != |prog|
        invariant 0 <= pos <= |prog| && Reached(prog, timely, pos, marks) && call == scheduled
        decreases |prog| - pos
      {
        CallsNext(prog, pos);
        r, marks := Instruction(prog, timely, pos, call, marks);
        if r != Done { return; }
        if prog[pos].Call? { call := call + 1; }
        pos := pos + 1;
      }
      assert prog[..pos] == prog;
      r, n := Finish(prog, timely, enough, marks);
    }

    /** The end of execute_one: unfinished calls get some more time, and then an output. */
    method Finish(prog: seq<Step>, timely: seq<bool>, enough: bool, ghost marks: seq<nat>)
      returns (r: Outcome, ghost n: nat)
      requires Valid() && scheduled == Calls(prog)
      requires Marked(prog, timely, threaded, marks, outputs) && (!threaded ==> Ordered(outputs, scheduled))
      modifies this
      ensures r == Done ==> multiset(outputs) == UpTo(Calls(prog)) && |outputs| == Calls(prog)
      ensures r == Done ==> n <= |outputs| && FirstFinished(finished, n, |outputs|)
      ensures r == Done && (enough || !threaded) ==> n == |outputs|
      ensures r == Done ==> Marked(prog, timely, threaded, marks, outputs[..n])
      ensures r == Done && !threaded ==> forall k :: 0 <= k < |outputs| ==> outputs[k] == k
      ensures r != OutOfThreads && (r == TooManyOutputs ==> Calls(prog) > MAX_CALLS)
    {
      ghost var before := outputs;
      var ok := WaitForRunning(enough);
      if !ok { return TooManyOutputs, 0; }
      if !threaded { OrderedStays(threads, running, before, outputs, scheduled); }
      MarkedStays(prog, timely, threaded, marks, before, outputs);
      n := |outputs|;
      ghost var all := outputs;
      ok := WriteUnfinished();
      if !ok { return TooManyOutputs, n; }
      assert outputs[..n] == all;
      UpToSize(scheduled);
      assert |outputs| == |multiset(outputs)|;
      r := Done;
    }
  }

  ghost predicate AllFinished(finished: seq<bool>, n: nat) {
    |finished| == n && forall k :: 0 <= k < n ==> finished[k]
  }

  /** Of n outputs the first k are of finished calls. */
  ghost predicate FirstFinished(finished: seq<bool>, k: nat, n: nat) {
    |finished| == n && k <= n && forall j :: 0 <= j < n ==> (finished[j] <==> j < k)
  }

  lemma {:induction false} FirstStill(finished: seq<bool>, k: nat, n: nat)
    requires FirstFinished(finished, k, n)
    ensures FirstFinished(finished + [false], k, n + 1)
  {
  }

  /** Steps of a worker until its call is done. */
  function StepsLeft(t: Thread): nat {
    if t.done then 0
    else
      match t.pc
      case Absent => 0
      case Waiting => 5
      case Seen => 4
      case Running => 3
      case Setting => 2
      case Storing => 1
  }

  /** What holds after instruction p, when these outputs have been written. */
  ghost predicate Law(prog: seq<Step>, timely: seq<bool>, threaded: bool, p: nat, outs: seq<nat>)
    requires p < |prog| == |timely|
  {
    match prog[p]
    case Config => timely[p] ==> multiset(outs) == UpTo(Calls(prog[..p]))
    case Call(async) => (!threaded || (!async && timely[p])) ==> Calls(prog[..p]) in outs
  }

  ghost predicate Marked(prog: seq<Step>, timely: seq<bool>, threaded: bool, marks: seq<nat>, outputs: seq<nat>) {
    && |marks| <= |prog| == |timely|
    && (forall p :: 0 <= p < |marks| ==> marks[p] <= |outputs| && Law(prog, timely, threaded, p, outputs[..marks[p]]))
  }

  lemma {:induction false} MarkedStays(prog: seq<Step>, timely: seq<bool>, threaded: bool, marks: seq<nat>,
                                       before: seq<nat>, outputs: seq<nat>)
    requires Marked(prog, timely, threaded, marks, before) && before <= outputs
    ensures Marked(prog, timely, threaded, marks, outputs)
  {
    forall p | 0 <= p < |marks|
      ensures marks[p] <= |outputs| && Law(prog, timely, threaded, p, outputs[..marks[p]])
    {
      assert outputs[..marks[p]] == before[..marks[p]];
    }
  }

  lemma {:induction false} MarkedNext(prog: seq<Step>, timely: seq<bool>, threaded: bool, marks: seq<nat>,
                                      before: seq<nat>, outputs: seq<nat>, pos: nat)
    requires Marked(prog, timely, threaded, marks, before) && before <= outputs
    requires |marks| == pos < |prog| && Law(prog, timely, threaded, pos, outputs)
    ensures Marked(prog, timely, threaded, marks + [|outputs|], outputs)
  {
    MarkedStays(prog, timely, threaded, marks, before, outputs);
    assert outputs[..|outputs|] == outputs;
  }

  /** Nothing is under way, and the outputs are in order. */
  ghost predicate Ordered(outputs: seq<nat>, n: nat) {
    |outputs| == n && forall k :: 0 <= k < n ==> outputs[k] == k
  }

  lemma {:induction false} UpToHas(n: nat, k: nat)
    ensures UpTo(n)[k] == if k < n then 1 else 0
  {
    if n > 0 { UpToHas(n - 1, k); }
  }

  lemma {:induction false} UpToSize(n: nat)
    ensures |UpTo(n)| == n
  {
    if n > 0 { UpToSize(n - 1); }
  }

  lemma {:induction false} NotNegative(ts: seq<Thread>, running: int, outputs: seq<nat>, n: nat)
    requires Tally(ts, running, outputs, n)
    ensures running >= 0 && |outputs| <= n
  {
    assert Open(true);
  }

  lemma {:induction false} NoOutputs(ts: seq<Thread>, running: int, outputs: seq<nat>)
    requires Tally(ts, running, outputs, 0)
    ensures outputs == []
  {
    assert Open(true);
  }

  lemma {:induction false} NoneLeft(ts: seq<Thread>)
    requires Count(ts) == 0
    ensures Bag(ts) == multiset{}
  {
    if |ts| > 0 { NoneLeft(ts[1..]); }
  }

  lemma {:induction false} NothingLeft(ts: seq<Thread>, running: int, outputs: seq<nat>, n: nat)
    requires Tally(ts, running, outputs, n) && running <= 0
    ensures multiset(outputs) == UpTo(n)
  {
    assert Open(true);
    NoneLeft(ts);
  }

  lemma {:induction false} AllOut(ts: seq<Thread>, running: int, outputs: seq<nat>, n: nat)
    requires Tally(ts, running, outputs, n)
    ensures running == 0 ==> multiset(outputs) == UpTo(n)
  {
    if running == 0 { NothingLeft(ts, running, outputs, n); }
  }

  lemma {:induction false} SweptAll(ts: seq<Thread>, ts': seq<Thread>, running: int, outputs: seq<nat>, n: nat)
    requires Swept(ts, ts', |ts'|) && Tally(ts', running, outputs, n)
    requires forall j :: 0 <= j < |ts| && ts[j].executing ==> ts[j].done
    ensures running == 0
  {
    assert Open(true);
    NoneRunning(ts');
  }

  lemma {:induction false} OrderedStays(ts: seq<Thread>, running: int, before: seq<nat>, outputs: seq<nat>, n: nat)
    requires Tally(ts, running, outputs, n) && Ordered(before, n) && before <= outputs
    ensures Ordered(outputs, n) && running == 0
  {
    assert Open(true);
    assert outputs == before;
  }

  lemma {:induction false} OrderedNext(ts: seq<Thread>, running: int, before: seq<nat>, outputs: seq<nat>, n: nat)
    requires n > 0 && Tally(ts, running, outputs, n) && Ordered(before, n - 1) && before <= outputs && n - 1 in outputs
    ensures Ordered(outputs, n)
  {
    assert Open(true);
    if outputs == before { assert false; }
    assert outputs == before + [n - 1];
  }

  lemma {:induction false} CallsNext(prog: seq<Step>, pos: nat)
    requires pos < |prog|
    ensures Calls(prog[..pos + 1]) == Calls(prog[..pos]) + if prog[pos].Call? then 1 else 0
  {
    assert prog[..pos + 1][..pos] == prog[..pos];
  }

  /** Threads from i on still owe an output for their calls. */
  ghost predicate Unfinished(ts: seq<Thread>, i: nat, outputs: seq<nat>, n: nat) {
    forall u: bool {:trigger Open(u)} :: Open(u) ==>
      && i <= |ts|
      && multiset(outputs) + Bag(ts[i..]) == UpTo(n)
      && |outputs| + Count(ts[i..]) == n
  }

  lemma {:induction false} UnfinishedStart(ts: seq<Thread>, running: int, outputs: seq<nat>, n: nat)
    requires Tally(ts, running, outputs, n)
    ensures Unfinished(ts, 0, outputs, n)
  {
    assert Open(true);
    assert ts[0..] == ts;
  }

  lemma {:induction false} UnfinishedNext(ts: seq<Thread>, i: nat, outputs: seq<nat>, n: nat)
    requires i < |ts| && Unfinished(ts, i, outputs, n)
    ensures if ts[i].executing then |outputs| < n && Unfinished(ts, i + 1, outputs + [ts[i].call], n)
            else Unfinished(ts, i + 1, outputs, n)
  {
    assert Open(true);
    assert ts[i..][0] == ts[i] && ts[i..][1..] == ts[i + 1..];
    var rest := Bag(ts[i + 1..]);
    if ts[i].executing {
      UnfinishedStep(outputs, ts[i].call, rest);
    } else {
      assert multiset{} + rest == rest;
    }
  }

  lemma {:induction false} UnfinishedEnd(ts: seq<Thread>, outputs: seq<nat>, n: nat)
    requires Unfinished(ts, |ts|, outputs, n)
    ensures multiset(outputs) == UpTo(n)
  {
    assert Open(true);
    assert ts[|ts|..] == [];
  }

  lemma {:induction false} UnfinishedStep(outputs: seq<nat>, call: nat, rest: multiset<nat>)
    ensures multiset(outputs) + (multiset{call} + rest) == multiset(outputs + [call]) + rest
  {
  }

  lemma {:induction false} CallsGrow(prog: seq<Step>, pos: nat)
    requires pos <= |prog|
    ensures Calls(prog[..pos]) <= Calls(prog)
  {
    if pos < |prog| {
      assert prog[..|prog| - 1][..pos] == prog[..pos];
      CallsGrow(prog[..|prog| - 1], pos);
    } else {
      assert prog[..pos] == prog;
    }
  }

  /** A thread right after event_set(&th->ready). */
  predicate Launched(t: Thread, threaded: bool) {
    t.created && t.executing && if threaded then Calm(t, threaded) else t.ready && !t.done && t.pc == Absent && !t.ran
  }

  ghost predicate CalmBut(ts: seq<Thread>, threaded: bool, k: nat) {
    forall i :: 0 <= i < |ts| && i != k ==> Calm(ts[i], threaded)
  }

  lemma {:induction false} CalmReplace(ts: seq<Thread>, i: nat, t: Thread, threaded: bool)
    requires CalmBut(ts, threaded, i) && i < |ts| && Calm(t, threaded)
    ensures AllCalm(ts[i := t], threaded)
  {
  }

  lemma {:induction false} TallyReplace(ts: seq<Thread>, i: nat, t: Thread, running: int, outputs: seq<nat>, n: nat)
    requires i < |ts| && Tally(ts, running, outputs, n) && t.executing == ts[i].executing && t.call == ts[i].call
    ensures Tally(ts[i := t], running, outputs, n)
  {
    assert Open(true);
    CountUpdate(ts, i, t);
    BagUpdate(ts, i, t);
    SameFromSum(Bag(ts[i := t]), Bag(ts), Own(t));
  }

  lemma {:induction false} SameFromSum(a: multiset<nat>, b: multiset<nat>, x: multiset<nat>)
    requires a + x == b + x
    ensures a == b
  {
    forall k ensures a[k] == b[k] {
      assert (a + x)[k] == (b + x)[k];
    }
  }

  lemma {:induction false} ArmStep(ts: seq<Thread>, ts': seq<Thread>, threaded: bool, i: nat, running: int,
                                   outputs: seq<nat>, n: nat)
    requires AllCalm(ts, threaded) && i < |ts| && Idle(ts[i]) && Tally(ts, running, outputs, n)
    requires ts' == ts[i := ts[i].(done := false)]
    ensures CalmBut(ts', threaded, i) && Armed(ts'[i], threaded) && Tally(ts', running, outputs, n)
  {
    TallyReplace(ts, i, ts'[i], running, outputs, n);
  }

  lemma {:induction false} ArmedMoved(ts: seq<Thread>, ts': seq<Thread>, threaded: bool, i: nat, running: int,
                                      outputs: seq<nat>, n: nat)
    requires i < |ts| && CalmBut(ts, threaded, i) && Armed(ts[i], threaded) && Tally(ts, running, outputs, n)
    requires Moved(ts, ts', threaded)
    ensures CalmBut(ts', threaded, i) && ts'[i] == ts[i] && Tally(ts', running, outputs, n)
  {
    TallySame(ts, ts', running, outputs, n);
  }

  predicate Idle(t: Thread) { t.created && t.done && !t.ready && !t.executing }

  /** Thread i no longer executes; the main thread has left the others alone. */
  ghost predicate Completed(ts: seq<Thread>, ts': seq<Thread>, i: nat) {
    && |ts'| == |ts| && forall j {:trigger ts'[j]} :: 0 <= j < |ts'| && j != i ==>
         SameOwned(ts[j], ts'[j]) && (ts[j].done ==> ts'[j].done)
  }

  /** Of the first i threads, those that were done at first have been completed; the others are as they were. */
  ghost predicate Swept(ts: seq<Thread>, ts': seq<Thread>, i: nat) {
    && |ts'| == |ts|
    && (forall j {:trigger ts'[j]} :: 0 <= j < |ts'| && j < i ==>
          (ts'[j].executing ==> ts[j].executing && !ts[j].done && ts'[j].call == ts[j].call))
    && (forall j {:trigger ts'[j]} :: i <= j < |ts'| ==> SameOwned(ts[j], ts'[j]) && (ts[j].done ==> ts'[j].done))
  }

  lemma {:induction false} SweptMoved(ts: seq<Thread>, ts': seq<Thread>, ts'': seq<Thread>, i: nat, threaded: bool)
    requires Swept(ts, ts', i) && Moved(ts', ts'', threaded)
    ensures Swept(ts, ts'', i)
  {
  }

  lemma {:induction false} SweptNext(ts: seq<Thread>, ts': seq<Thread>, i: nat)
    requires Swept(ts, ts', i) && i < |ts'| && !(ts'[i].executing && ts'[i].done)
    ensures Swept(ts, ts', i + 1)
  {
  }

  lemma {:induction false} SweptCompleted(ts: seq<Thread>, ts': seq<Thread>, ts'': seq<Thread>, i: nat)
    requires Swept(ts, ts', i) && i < |ts'| && Completed(ts', ts'', i) && !ts''[i].executing
    ensures Swept(ts, ts'', i + 1)
  {
  }

  lemma {:induction false} RetireKeepsCalm(ts: seq<Thread>, threaded: bool, i: nat)
    requires AllCalm(ts, threaded) && i < |ts| && ts[i].executing && ts[i].done
    ensures AllCalm(ts[i := ts[i].(executing := false)], threaded)
  {
  }

  lemma {:induction false} NoneRunning(ts: seq<Thread>)
    requires forall i :: 0 <= i < |ts| ==> !ts[i].executing
    ensures Count(ts) == 0 && Bag(ts) == multiset{}
  {
    if |ts| > 0 { NoneRunning(ts[1..]); }
  }
}
