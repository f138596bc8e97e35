/**
 What the executor does with the stream when a call completes: copyout_call_results in
 executor/executor.cc starts at the position behind the call's arguments and stops at the first
 word that is not a copyout opcode.
 */
module ExecScan {
  import opened Basics
  import opened Bits
  import opened Varint
  import opened Framing
  import opened ExecFormat
  import opened ExecStream
  import opened ExecResources
  import opened ExecCode
  import opened ExecWriter

  datatype Slot = Slot(executed: bool, val: uint64)

  /** What copyout(addr, size) reads from memory; None where it faults. */
  type Memory = (uint64, uint64) -> Option<uint64>

  function Note(slots: seq<Slot>, c: ExecCopyout, mem: Memory): (r: seq<Slot>)
    requires c.index < |slots|
    ensures |r| == |slots|
  {
    match mem(c.addr, c.size)
    case None => slots
    case Some(v) => slots[c.index := Slot(true, v)]
  }

  /** Sizes that copyout can read; it fails for others. */
  predicate CopySize(n: uint64) { n == 1 || n == 2 || n == 4 || n == 8 }

  predicate Sized(cs: seq<ExecCopyout>) { forall i :: 0 <= i < |cs| ==> CopySize(cs[i].size) }

  /** The result table after the given copyouts, in order. */
  function Record(slots: seq<Slot>, cs: seq<ExecCopyout>, mem: Memory): (r: seq<Slot>)
    requires forall c :: c in cs ==> c.index < |slots|
    ensures |r| == |slots|
    decreases |cs|
  {
    if |cs| == 0 then slots else Record(Note(slots, cs[0], mem), cs[1..], mem)
  }

  /** The scan on bytes; None where the executor fails. */
  function ScanFrom(t: Target, data: seq<byte>, pos: nat, slots: seq<Slot>, mem: Memory): Option<seq<Slot>>
    requires t.codec.Valid() && |slots| == MAX_COMMANDS
    decreases |data| - pos
  {
    match t.codec.read(data, pos)
    case None => None
    case Some(Item(op, j)) =>
      if op != INSTR_COPYOUT then Some(slots) else
      match ReadWords(t.codec, data, j, 3)
      case None => None
      case Some(Item(ws, k)) =>
        if ws[0] >= MAX_COMMANDS || !CopySize(ws[2]) then None
        else ScanFrom(t, data, k, Note(slots, ExecCopyout(ws[0], Wrap(ws[1] + t.dataOffset), ws[2]), mem), mem)
  }

  function NoteReturn(slots: seq<Slot>, index: uint64, res: uint64): Option<seq<Slot>> {
    if index == NO_COPYOUT then Some(slots)
    else if index >= |slots| then None
    else Some(slots[index := Slot(true, res)])
  }

  function CallResults(t: Target, data: seq<byte>, pos: nat, index: uint64, res: uint64, slots: seq<Slot>,
                       mem: Memory): Option<seq<Slot>>
    requires t.codec.Valid() && |slots| == MAX_COMMANDS
  {
    match NoteReturn(slots, index, res)
    case None => None
    case Some(s) => ScanFrom(t, data, pos, s, mem)
  }

  // ----- the code -----

  method ReadExec(c: Codec, data: seq<byte>, pos: nat) returns (r: Option<Item<uint64>>)
    requires IsVarint(c) && pos <= |data|
    ensures r == c.read(data, pos)
  {
    assert Open(true);
    r := ReadInput(data, pos);
  }

  method ReadThree(c: Codec, data: seq<byte>, pos: nat) returns (r: Option<Item<seq<uint64>>>)
    requires IsVarint(c) && pos <= |data|
    ensures r == ReadWords(c, data, pos, 3)
  {
    var a := ReadExec(c, data, pos);
    if a.None? { return None; }
    var b := ReadExec(c, data, a.value.next);
    if b.None? { return None; }
    var d := ReadExec(c, data, b.value.next);
    ThreeWords(c, data, pos);
    if d.None? { return None; }
    return Some(Item([a.value.val, b.value.val, d.value.val], d.value.next));
  }

  lemma {:induction false} ThreeWords(c: Codec, data: seq<byte>, pos: nat)
    requires c.Valid() && c.read(data, pos).Some?
    requires c.read(data, c.read(data, pos).value.next).Some?
    ensures var a := c.read(data, pos).value;
            var b := c.read(data, a.next).value;
            ReadWords(c, data, pos, 3) ==
            match c.read(data, b.next)
            case None => None
            case Some(d) => Some(Item([a.val, b.val, d.val], d.next))
  {
    var a := c.read(data, pos).value;
    var b := c.read(data, a.next).value;
    match c.read(data, b.next)
    case None =>
      assert ReadWords(c, data, b.next, 1) == None;
      assert ReadWords(c, data, a.next, 2) == None;
    case Some(d) =>
      assert ReadWords(c, data, b.next, 1) == Some(Item([d.val] + [], d.next));
      assert ReadWords(c, data, a.next, 2) == Some(Item([b.val] + ([d.val] + []), d.next));
      assert [a.val] + ([b.val] + ([d.val] + [])) == [a.val, b.val, d.val];
  }

  /** copyout_call_results */
  method CopyoutCallResults(t: Target, data: seq<byte>, start: nat, index: uint64, res: uint64,
                            results: array<Slot>, mem: Memory) returns (ok: bool)
    requires IsVarint(t.codec) && start <= |data| && results.Length == MAX_COMMANDS
    modifies results
    ensures match CallResults(t, data, start, index, res, old(results[..]), mem)
            case None => !ok
            case Some(s) => ok && results[..] == s
  {
    if index != NO_COPYOUT {
      if index >= MAX_COMMANDS { return false; }
      results[index] := Slot(true, res);
    }
    ghost var all := ScanFrom(t, data, start, results[..], mem);
    assert CallResults(t, data, start, index, res, old(results[..]), mem) == all;
    var pos := start;
    while true
      invariant pos <= |data|
      invariant ScanFrom(t, data, pos, results[..], mem) == all
      decreases |data| - pos
    {
      var op := ReadExec(t.codec, data, pos);
      if op.None? { return false; }
      if op.value.val != INSTR_COPYOUT { return true; }
      var ws := ReadThree(t.codec, data, op.value.next);
      if ws.None? { return false; }
      var i := ws.value.val[0];
      if i >= MAX_COMMANDS { return false; }
      var size := ws.value.val[2];
      if size != 1 && size != 2 && size != 4 && size != 8 { return false; }
      var val := mem(Wrap(ws.value.val[1] + t.dataOffset), size);
      if val.Some? { results[i] := Slot(true, val.value); }
      pos := ws.value.next;
    }
  }

  // ----- what the scan finds -----

  lemma {:induction false} CopyoutStep(t: Target, data: seq<byte>, i: nat, c: ExecCopyout, slots: seq<Slot>,
                                       mem: Memory, k: nat)
    requires t.Valid() && |slots| == MAX_COMMANDS && c.index < MAX_COMMANDS
    requires At(data, i, EncodeInstr(t, Copyout(c.index, c.addr, c.size)))
    requires k == i + |EncodeInstr(t, Copyout(c.index, c.addr, c.size))|
    ensures ScanFrom(t, data, i, slots, mem) ==
            if CopySize(c.size) then ScanFrom(t, data, k, Note(slots, c, mem), mem) else None
  {
    var x := Copyout(c.index, c.addr, c.size);
    var ws := InstrWords(t, x);
    Headed(t.codec, data, i, ws, InstrTail(t, x), k);
    assert ws[1..] == [c.index, Wrap(c.addr - t.dataOffset), c.size];
    WrapInverse(c.addr, t.dataOffset);
  }

  lemma {:induction false} OtherStops(t: Target, data: seq<byte>, i: nat, x: Instr<Arg>, slots: seq<Slot>, mem: Memory)
    requires t.Valid() && |slots| == MAX_COMMANDS && ValidInstr(t, x) && !x.Copyout?
    requires At(data, i, EncodeInstr(t, x))
    ensures ScanFrom(t, data, i, slots, mem) == Some(slots)
  {
    var ws := InstrWords(t, x);
    Headed(t.codec, data, i, ws, InstrTail(t, x), i + |Words(t.codec, ws)|);
    assert ws[0] != INSTR_COPYOUT;
  }

  /** In front of any other instruction, the scan records exactly the copyouts there, or fails on a size. */
  lemma {:induction false} ScanRecords(t: Target, data: seq<byte>, i: nat, cs: seq<ExecCopyout>, x: Instr<Arg>,
                                       slots: seq<Slot>, mem: Memory)
    requires t.Valid() && |slots| == MAX_COMMANDS && ValidInstr(t, x) && !x.Copyout?
    requires forall c :: c in cs ==> c.index < MAX_COMMANDS
    requires At(data, i, Bytes(t, CopyoutInstrs(cs) + [x]))
    ensures ScanFrom(t, data, i, slots, mem) == if Sized(cs) then Some(Record(slots, cs, mem)) else None
    decreases |cs|
  {
    var xs := CopyoutInstrs(cs) + [x];
    AtSplit(data, i, EncodeInstr(t, xs[0]), Bytes(t, xs[1..]));
    if |cs| == 0 {
      assert xs == [x];
      OtherStops(t, data, i, x, slots, mem);
    } else {
      assert xs[1..] == CopyoutInstrs(cs[1..]) + [x];
      var k := i + |EncodeInstr(t, xs[0])|;
      CopyoutStep(t, data, i, cs[0], slots, mem, k);
      if CopySize(cs[0].size) { ScanRecords(t, data, k, cs[1..], x, Note(slots, cs[0], mem), mem); }
      SizedCons(cs);
    }
  }

  lemma {:induction false} SizedCons(cs: seq<ExecCopyout>)
    requires |cs| > 0
    ensures Sized(cs) <==> CopySize(cs[0].size) && Sized(cs[1..])
  {
    assert forall i :: 1 <= i < |cs| ==> cs[i] == cs[1..][i - 1];
  }

  /** The stream up to the end of the arguments of call k: where input_pos is when k is scheduled. */
  function UpToArgs(calls: seq<ExecCall<Arg>>, acts: seq<Action>, k: nat): seq<Instr<Arg>>
    requires k < |calls|
  {
    var c := calls[k];
    Laid(calls[..k], acts) + ConfigInstrs(ActionsAt(acts, k)) +
    (CopyinInstrs(c.copyin) + PropsInstrs(c.props) + [Call(c.id, c.index, c.args)])
  }

  function CopyoutPos(t: Target, calls: seq<ExecCall<Arg>>, acts: seq<Action>, k: nat): nat
    requires k < |calls|
  {
    |t.codec.enc(Wrap(|calls|))| + |Bytes(t, UpToArgs(calls, acts, k))|
  }

  lemma {:induction false} Regroup<T>(a: seq<T>, b: seq<T>, d: seq<T>, e: seq<T>, f: seq<T>)
    ensures a + (b + ((d + e) + f)) == (a + b + d) + (e + f)
  {
  }

  /** The middle of three parts of a stream. */
  lemma {:induction false} MiddleAt<T>(enc: T -> seq<byte>, data: seq<byte>, i: nat, u: seq<T>, e: seq<T>, f: seq<T>)
    requires |f| > 0 && At(data, i, Many(enc, u + (e + f)))
    ensures At(data, i + |Many(enc, u)|, Many(enc, e + [f[0]]))
  {
    assert e + f == (e + [f[0]]) + f[1..];
    ManyConcat(enc, u, e + f);
    ManyConcat(enc, e + [f[0]], f[1..]);
    AtSplit(data, i, Many(enc, u), Many(enc, e + f));
    AtSplit(data, i + |Many(enc, u)|, Many(enc, e + [f[0]]), Many(enc, f[1..]));
  }

  lemma {:induction false} StreamSplits(calls: seq<ExecCall<Arg>>, acts: seq<Action>, k: nat)
    requires k < |calls|
    ensures Layout(calls, acts, 0) ==
            UpToArgs(calls, acts, k) + (CopyoutInstrs(calls[k].copyout) + Layout(calls, acts, k + 1))
  {
    LaidIsLayout(calls, acts, k);
    var c := calls[k];
    var a, b := Laid(calls[..k], acts), ConfigInstrs(ActionsAt(acts, k));
    var d := CopyinInstrs(c.copyin) + PropsInstrs(c.props) + [Call(c.id, c.index, c.args)];
    var e, f := CopyoutInstrs(c.copyout), Layout(calls, acts, k + 1);
    assert Layout(calls, acts, k) == b + ((d + e) + f);
    Regroup(a, b, d, e, f);
  }

  lemma {:induction false} PlaceOfCopyouts(t: Target, data: seq<byte>, calls: seq<ExecCall<Arg>>, acts: seq<Action>,
                                           k: nat)
    requires k < |calls| && At(data, 0, Serialize(t, calls, acts))
    ensures var f := Layout(calls, acts, k + 1);
            |f| > 0 && At(data, CopyoutPos(t, calls, acts, k), Bytes(t, CopyoutInstrs(calls[k].copyout) + [f[0]]))
  {
    var u, e, f := UpToArgs(calls, acts, k), CopyoutInstrs(calls[k].copyout), Layout(calls, acts, k + 1);
    LayoutHead(calls, acts, k + 1);
    StreamSplits(calls, acts, k);
    HeadAt(InstrEncoder(t), data, t.codec.enc(Wrap(|calls|)), u, e, f);
  }

  lemma {:induction false} HeadAt<T>(enc: T -> seq<byte>, data: seq<byte>, w: seq<byte>, u: seq<T>, e: seq<T>,
                                     f: seq<T>)
    requires |f| > 0 && At(data, 0, w + Many(enc, u + (e + f)))
    ensures At(data, |w| + |Many(enc, u)|, Many(enc, e + [f[0]]))
  {
    AtSplit(data, 0, w, Many(enc, u + (e + f)));
    MiddleAt(enc, data, |w|, u, e, f);
  }

  /**
   When call k of a serialized program completes, the result table gets its return value and exactly
   its own copyouts, whatever instructions (config actions, the next call, the end) follow; it fails
   exactly for an index outside the table or a size that cannot be read.
   */
  lemma {:induction false} CompletionRecords(t: Target, data: seq<byte>, calls: seq<ExecCall<Arg>>, acts: seq<Action>,
                                             k: nat, res: uint64, slots: seq<Slot>, mem: Memory)
    requires t.Valid() && k < |calls| && |slots| == MAX_COMMANDS
    requires forall j :: 0 <= j < |calls| ==> ValidCall(t, calls[j])
    requires At(data, 0, Serialize(t, calls, acts))
    requires forall c :: c in calls[k].copyout ==> c.index < MAX_COMMANDS
    ensures CallResults(t, data, CopyoutPos(t, calls, acts, k), calls[k].index, res, slots, mem) ==
            match NoteReturn(slots, calls[k].index, res)
            case None => None
            case Some(s) => if Sized(calls[k].copyout) then Some(Record(s, calls[k].copyout, mem)) else None
  {
    PlaceOfCopyouts(t, data, calls, acts, k);
    LayoutHead(calls, acts, k + 1);
    LayoutValid(t, calls, acts, k + 1);
    match NoteReturn(slots, calls[k].index, res)
    case None =>
    case Some(s) =>
      ScanRecords(t, data, CopyoutPos(t, calls, acts, k), calls[k].copyout, Layout(calls, acts, k + 1)[0], s, mem);
  }

  /** In a well-formed program within the writer's limit, no completion fails on an index. */
  lemma {:induction false} IndicesFit(z: uint64, cs: seq<PCall>, k: nat)
    requires WellFormed(cs) && k < |cs| && |AllProduced(cs)| <= MAX_COMMANDS
    ensures SerializeCalls(z, cs).Some? && |SerializeCalls(z, cs).value.calls| == |cs|
    ensures var e := SerializeCalls(z, cs).value.calls[k];
            && (e.index == NO_COPYOUT || e.index < MAX_COMMANDS)
            && forall c :: c in e.copyout ==> c.index < MAX_COMMANDS
  {
    CallsAreGood(z, cs, k);
    PrefixProduced(cs, k + 1);
    ProducedStep(cs, k + 1);
    assert WellShaped(cs[k]);
    GoodIndicesFit(z, SerializeCalls(z, cs[..k]).value.m, AllProduced(cs[..k]), cs[k],
        SerializeCalls(z, cs).value.calls[k]);
  }

  lemma {:induction false} GoodIndicesFit(z: uint64, m: Infos, ids: seq<nat>, c: PCall, e: ExecCall<Arg>)
    requires WellShaped(c) && GoodCall(z, m, ids, c, e) && |ids| + |Produced(c)| <= MAX_COMMANDS
    ensures e.index == NO_COPYOUT || e.index < MAX_COMMANDS
    ensures forall o :: o in e.copyout ==> o.index < MAX_COMMANDS
  {
    var n := |ids|;
    if RetUsed(c) {
      RetIsProduced(c);
      WrapSmall(n);
    }
    forall o | o in e.copyout ensures o.index < MAX_COMMANDS {
      var j :| 0 <= j < |e.copyout| && e.copyout[j] == o;
      WrapSmall(if RetUsed(c) then n + 1 + j else n + j);
    }
  }
}
