/**
 Programs in the exec format: how prog/encodingexec.go lays calls and config actions out as
 instructions, and how prog/decodeexec.go puts calls together again although nothing in the
 stream marks where a call ends.
 */
module ExecStream {
  import opened Basics
  import opened Bits
  import opened Varint
  import opened Framing
  import opened ExecFormat
  import opened StableOrder

  datatype Props = Props(failNth: uint64, async: bool, rerun: uint64)

  const NO_PROPS := Props(0, false, 0)

  datatype ExecCopyin<A> = ExecCopyin(addr: uint64, arg: A)
  datatype ExecCopyout = ExecCopyout(index: uint64, addr: uint64, size: uint64)

  /** One call with what is copied in before it and out after it. */
  datatype ExecCall<A> = ExecCall(copyin: seq<ExecCopyin<A>>, props: Props, id: uint64, index: uint64,
                                  args: seq<A>, copyout: seq<ExecCopyout>)

  datatype Action = Action(before: int, param: uint64, value: uint64, flags: uint64)

  // ----- the writer's instruction stream -----

  function CopyinInstrs(cs: seq<ExecCopyin<Arg>>): seq<Instr<Arg>> {
    seq(|cs|, i requires 0 <= i < |cs| => Copyin(cs[i].addr, cs[i].arg))
  }

  function CopyoutInstrs(cs: seq<ExecCopyout>): seq<Instr<Arg>> {
    seq(|cs|, i requires 0 <= i < |cs| => Copyout(cs[i].index, cs[i].addr, cs[i].size))
  }

  /** SetProps is written only for properties that differ from the default. */
  function PropsInstrs(p: Props): seq<Instr<Arg>> {
    if p == NO_PROPS then [] else [SetProps(p.failNth, if p.async then 1 else 0, p.rerun)]
  }

  function CallInstrs(c: ExecCall<Arg>): seq<Instr<Arg>> {
    CopyinInstrs(c.copyin) + PropsInstrs(c.props) + [Call(c.id, c.index, c.args)] + CopyoutInstrs(c.copyout)
  }

  function ConfigInstrs(acts: seq<Action>): seq<Instr<Arg>> {
    seq(|acts|, i requires 0 <= i < |acts| => Config(acts[i].param, acts[i].value, acts[i].flags))
  }

  function BeforeKey(): Action -> seq<int> { (a: Action) => [a.before] }
  function ParamKey(): Action -> seq<int> { (a: Action) => [a.param as int, a.value as int] }
  function FullKey(): Action -> seq<int> { (a: Action) => [a.before, a.param as int, a.value as int] }

  /** Actions in front of call i: in the order given, then stably sorted by parameter and value. */
  function ActionsAt(acts: seq<Action>, i: int): seq<Action> {
    Sort(Group(acts, BeforeKey(), [i]), ParamKey())
  }

  /** Calls i.. with the actions in front of each, and the actions behind the last. */
  function Layout(calls: seq<ExecCall<Arg>>, acts: seq<Action>, i: nat): seq<Instr<Arg>>
    requires i <= |calls|
    decreases |calls| - i
  {
    ConfigInstrs(ActionsAt(acts, i)) +
    if i == |calls| then [Eof] else CallInstrs(calls[i]) + Layout(calls, acts, i + 1)
  }

  function InstrEncoder(t: Target): Instr<Arg> -> seq<byte> { x => EncodeInstr(t, x) }

  function Serialize(t: Target, calls: seq<ExecCall<Arg>>, acts: seq<Action>): seq<byte> {
    t.codec.enc(Wrap(|calls|)) + Many(InstrEncoder(t), Layout(calls, acts, 0))
  }

  // ----- the decoder -----

  /** The call under construction; it is complete once id is set and something else begins. */
  datatype Pending = Pending(copyin: seq<ExecCopyin<ExecArg>>, props: Props, id: Option<uint64>, index: uint64,
                             args: seq<ExecArg>, copyout: seq<ExecCopyout>)

  const FRESH := Pending([], NO_PROPS, None, 0, [], [])

  datatype State = State(numVars: nat, vars: seq<uint64>, call: Pending, calls: seq<ExecCall<ExecArg>>,
                         actions: seq<Action>)

  const START := State(0, [], FRESH, [], [])

  function Max(a: nat, b: nat): nat { if a < b then b else a }

  function CopyoutVars(n: nat, cs: seq<ExecCopyout>): nat {
    if |cs| == 0 then n else Max(CopyoutVars(n, cs[..|cs| - 1]), Wrap(cs[|cs| - 1].index + 1))
  }

  /** numVars after a call with this index and these copyouts. */
  function CallVars(n: nat, index: uint64, cs: seq<ExecCopyout>): nat {
    CopyoutVars(if index != NO_COPYOUT && n < index + 1 then index + 1 else n, cs)
  }

  /** commitCall */
  function Commit(s: State): State {
    if s.call.id.None? then s
    else
      var c := s.call;
      s.(numVars := CallVars(s.numVars, c.index, c.copyout),
         calls := s.calls + [ExecCall(c.copyin, c.props, c.id.value, c.index, c.args, c.copyout)],
         call := FRESH)
  }

  /** A result argument makes room for its variable and sets its default. */
  function NoteVar(vars: seq<uint64>, a: ExecArg): seq<uint64> {
    if !a.ExecResult? then vars
    else
      var grown := if |vars| <= a.index then vars + Zeros(a.index + 1 - |vars|) else vars;
      grown[a.index := a.deflt]
  }

  function Zeros(n: nat): (z: seq<uint64>)
    ensures |z| == n
  {
    seq(n, _ => 0)
  }

  function NoteVars(vars: seq<uint64>, args: seq<ExecArg>): seq<uint64>
    decreases |args|
  {
    if |args| == 0 then vars else NoteVars(NoteVar(vars, args[0]), args[1..])
  }

  /** One instruction that is not the end of the program. */
  function Step(s0: State, x: Instr<ExecArg>): State {
    match x
    case Copyin(addr, arg) =>
      var s := Commit(s0);
      s.(call := s.call.(copyin := s.call.copyin + [ExecCopyin(addr, arg)]), vars := NoteVar(s.vars, arg))
    case Copyout(index, addr, size) =>
      s0.(call := s0.call.(copyout := s0.call.copyout + [ExecCopyout(index, addr, size)]))
    case SetProps(f, a, r) =>
      var s := Commit(s0);
      s.(call := s.call.(props := Props(f, s.call.props.async || a == 1, r)))
    case Config(p, v, f) =>
      var s := Commit(s0);
      s.(actions := s.actions + [Action(|s.calls|, p, v, f)])
    case Call(id, index, args) =>
      var s := Commit(s0);
      s.(call := s.call.(id := Some(id), index := index, args := s.call.args + args), vars := NoteVars(s.vars, args))
    case Eof => Commit(s0)
  }

  function Run(s: State, xs: seq<Instr<ExecArg>>): State
    decreases |xs|
  {
    if |xs| == 0 then s else Run(Step(s, xs[0]), xs[1..])
  }

  datatype ExecProg = ExecProg(calls: seq<ExecCall<ExecArg>>, vars: seq<uint64>, actions: seq<Action>)

  /** The loop of parse: instructions up to Eof, or an error. */
  function Parse(t: Target, data: seq<byte>, i: nat, s: State): Option<State>
    requires t.codec.Valid()
    decreases |data| - i
  {
    match ParseInstr(t, data, i)
    case None => None
    case Some(Item(x, j)) => if x.Eof? then Some(Step(s, x)) else Parse(t, data, j, Step(s, x))
  }

  /** DeserializeExec */
  function Deserialize(t: Target, data: seq<byte>): Option<ExecProg>
    requires t.codec.Valid()
  {
    match t.codec.read(data, 0)
    case None => None
    case Some(Item(ncalls, i)) =>
      match Parse(t, data, i, START)
      case None => None
      case Some(s) =>
        if ncalls != |s.calls| || |s.vars| != s.numVars then None else Some(ExecProg(s.calls, s.vars, s.actions))
  }

  // ----- what the decoder should find -----

  predicate ValidCall(t: Target, c: ExecCall<Arg>) {
    && c.id < t.syscalls && |c.args| < TWO64
    && (forall i :: 0 <= i < |c.args| ==> ValidCallArg(c.args[i]))
    && (forall i :: 0 <= i < |c.copyin| ==> ValidArg(c.copyin[i].arg))
  }

  function ViewCopyins(cs: seq<ExecCopyin<Arg>>): seq<ExecCopyin<ExecArg>> {
    seq(|cs|, i requires 0 <= i < |cs| => ExecCopyin(cs[i].addr, View(cs[i].arg)))
  }

  function ViewCall(c: ExecCall<Arg>): ExecCall<ExecArg> {
    ExecCall(ViewCopyins(c.copyin), c.props, c.id, c.index, ViewArgs(c.args), c.copyout)
  }

  function ViewCalls(cs: seq<ExecCall<Arg>>): (r: seq<ExecCall<ExecArg>>)
    ensures |r| == |cs|
  {
    seq(|cs|, i requires 0 <= i < |cs| => ViewCall(cs[i]))
  }

  /** numVars of the first k calls. */
  function NumVars(cs: seq<ExecCall<Arg>>, k: nat): nat
    requires k <= |cs|
  {
    if k == 0 then 0 else CallVars(NumVars(cs, k - 1), cs[k - 1].index, cs[k - 1].copyout)
  }

  function CopyinArgs(cs: seq<ExecCopyin<Arg>>): seq<ExecArg> {
    seq(|cs|, i requires 0 <= i < |cs| => View(cs[i].arg))
  }

  /** Variables after the first k calls: every result argument notes its default, in stream order. */
  function Vars(cs: seq<ExecCall<Arg>>, k: nat): seq<uint64>
    requires k <= |cs|
  {
    if k == 0 then [] else
    NoteVars(NoteVars(Vars(cs, k - 1), CopyinArgs(cs[k - 1].copyin)), ViewArgs(cs[k - 1].args))
  }

  /** Actions in front of calls 0..k-1. */
  function ActionsUpTo(acts: seq<Action>, k: nat): seq<Action> {
    if k == 0 then [] else ActionsUpTo(acts, k - 1) + ActionsAt(acts, k - 1)
  }

  /** The decoder state between calls: k calls done, actions of the first m positions seen. */
  function Between(cs: seq<ExecCall<Arg>>, acts: seq<Action>, k: nat, m: nat): State
    requires k <= |cs|
  {
    State(NumVars(cs, k), Vars(cs, k), FRESH, ViewCalls(cs[..k]), ActionsUpTo(acts, m))
  }

  // ----- instructions of one call -----

  function ViewInstrs(xs: seq<Instr<Arg>>): (r: seq<Instr<ExecArg>>)
    ensures |r| == |xs|
  {
    seq(|xs|, i requires 0 <= i < |xs| => ViewInstr(xs[i]))
  }

  lemma {:induction false} RunConcat(s: State, xs: seq<Instr<ExecArg>>, ys: seq<Instr<ExecArg>>)
    ensures Run(s, xs + ys) == Run(Run(s, xs), ys)
    decreases |xs|
  {
    if |xs| == 0 {
      assert xs + ys == ys;
    } else {
      assert (xs + ys)[1..] == xs[1..] + ys;
      RunConcat(Step(s, xs[0]), xs[1..], ys);
    }
  }

  lemma {:induction false} ViewConcat(xs: seq<Instr<Arg>>, ys: seq<Instr<Arg>>)
    ensures ViewInstrs(xs + ys) == ViewInstrs(xs) + ViewInstrs(ys)
  {
  }

  /** Every instruction that starts something new commits first, so pending and committed look alike. */
  lemma {:induction false} CommitFirst(s: State, x: Instr<ExecArg>)
    requires !x.Copyout?
    ensures Step(s, x) == Step(Commit(s), x)
  {
  }

  lemma {:induction false} RunCommitFirst(s: State, xs: seq<Instr<ExecArg>>)
    requires |xs| > 0 && !xs[0].Copyout?
    ensures Run(s, xs) == Run(Commit(s), xs)
  {
    CommitFirst(s, xs[0]);
  }

  lemma {:induction false} CopyinsRun(s: State, cs: seq<ExecCopyin<Arg>>)
    requires s.call.id.None?
    ensures Run(s, ViewInstrs(CopyinInstrs(cs))) ==
            s.(call := s.call.(copyin := s.call.copyin + ViewCopyins(cs)), vars := NoteVars(s.vars, CopyinArgs(cs)))
    decreases |cs|
  {
    var xs := ViewInstrs(CopyinInstrs(cs));
    if |cs| == 0 {
      assert s.call.copyin + ViewCopyins(cs) == s.call.copyin;
    } else {
      var c, rest := cs[0], cs[1..];
      var s' := Step(s, xs[0]);
      CopyinsRun(s', rest);
      assert xs[1..] == ViewInstrs(CopyinInstrs(rest));
      assert CopyinArgs(cs)[1..] == CopyinArgs(rest);
      assert s.call.copyin + ViewCopyins(cs) == s'.call.copyin + ViewCopyins(rest);
    }
  }

  lemma {:induction false} CopyoutsRun(s: State, cs: seq<ExecCopyout>)
    ensures Run(s, ViewInstrs(CopyoutInstrs(cs))) == s.(call := s.call.(copyout := s.call.copyout + cs))
    decreases |cs|
  {
    var xs := ViewInstrs(CopyoutInstrs(cs));
    if |cs| == 0 {
      assert s.call.copyout + cs == s.call.copyout;
    } else {
      var s' := Step(s, xs[0]);
      CopyoutsRun(s', cs[1..]);
      assert xs[1..] == ViewInstrs(CopyoutInstrs(cs[1..]));
      assert s.call.copyout + cs == s'.call.copyout + cs[1..];
    }
  }

  lemma {:induction false} ConfigsRun(s: State, acts: seq<Action>)
    requires s.call == FRESH && forall i :: 0 <= i < |acts| ==> acts[i].before == |s.calls|
    ensures Run(s, ViewInstrs(ConfigInstrs(acts))) == s.(actions := s.actions + acts)
    decreases |acts|
  {
    var xs := ViewInstrs(ConfigInstrs(acts));
    if |acts| == 0 {
      assert s.actions + acts == s.actions;
    } else {
      var s' := Step(s, xs[0]);
      ConfigsRun(s', acts[1..]);
      assert xs[1..] == ViewInstrs(ConfigInstrs(acts[1..]));
      assert s.actions + acts == s'.actions + acts[1..];
    }
  }

  lemma {:induction false} PropsRun(s: State, p: Props)
    requires s.call.id.None? && s.call.props == NO_PROPS
    ensures Run(s, ViewInstrs(PropsInstrs(p))) == s.(call := s.call.(props := p))
  {
    if p != NO_PROPS {
      var xs := ViewInstrs(PropsInstrs(p));
      assert xs == [SetProps(p.failNth, if p.async then 1 else 0, p.rerun)];
      assert Run(Step(s, xs[0]), xs[1..]) == Step(s, xs[0]);
    }
  }

  /** The instructions of one call, read from a clean state and committed, append that call. */
  lemma {:induction false} CallRun(s: State, c: ExecCall<Arg>)
    requires s.call == FRESH
    ensures Commit(Run(s, ViewInstrs(CallInstrs(c)))) ==
            s.(numVars := CallVars(s.numVars, c.index, c.copyout),
               vars := NoteVars(NoteVars(s.vars, CopyinArgs(c.copyin)), ViewArgs(c.args)),
               calls := s.calls + [ViewCall(c)])
  {
    var a, b, d, e := CopyinInstrs(c.copyin), PropsInstrs(c.props), [Call(c.id, c.index, c.args)],
        CopyoutInstrs(c.copyout);
    ViewConcat(a + b + d, e);
    ViewConcat(a + b, d);
    ViewConcat(a, b);
    RunConcat(s, ViewInstrs(a + b + d), ViewInstrs(e));
    RunConcat(s, ViewInstrs(a + b), ViewInstrs(d));
    RunConcat(s, ViewInstrs(a), ViewInstrs(b));
    CopyinsRun(s, c.copyin);
    assert [] + ViewCopyins(c.copyin) == ViewCopyins(c.copyin);
    var s1 := Run(s, ViewInstrs(a));
    PropsRun(s1, c.props);
    var s2 := Run(s1, ViewInstrs(b));
    SingleRun(s2, c);
    var s3 := Run(s2, ViewInstrs(d));
    CopyoutsRun(s3, c.copyout);
    assert [] + c.copyout == c.copyout;
  }

  lemma {:induction false} SingleRun(s: State, c: ExecCall<Arg>)
    requires s.call.id.None? && s.call.args == []
    ensures Run(s, ViewInstrs([Call(c.id, c.index, c.args)])) ==
            s.(call := s.call.(id := Some(c.id), index := c.index, args := ViewArgs(c.args)),
               vars := NoteVars(s.vars, ViewArgs(c.args)))
  {
    var xs := ViewInstrs([Call(c.id, c.index, c.args)]);
    assert xs == [Call(c.id, c.index, ViewArgs(c.args))];
    assert Run(Step(s, xs[0]), xs[1..]) == Step(s, xs[0]);
    assert [] + ViewArgs(c.args) == ViewArgs(c.args);
  }

  // ----- the whole program -----

  lemma {:induction false} SortMembers<T(!new)>(s: seq<T>, key: T -> seq<int>, x: T)
    requires x in Sort(s, key)
    ensures x in s
  {
    SortIsStable(s, key);
    SameMembers(Sort(s, key), s, key, x);
  }

  lemma {:induction false} ActionsAtBefore(acts: seq<Action>, i: int)
    ensures forall a :: a in ActionsAt(acts, i) ==> a in acts && a.before == i
  {
    var g := Group(acts, BeforeKey(), [i]);
    forall a | a in ActionsAt(acts, i) ensures a in acts && a.before == i {
      SortMembers(g, ParamKey(), a);
      GroupFrom(acts, BeforeKey(), [i], a);
      assert [a.before] == [i];
      assert [a.before][0] == [i][0];
    }
  }

  lemma {:induction false} LayoutHead(calls: seq<ExecCall<Arg>>, acts: seq<Action>, i: nat)
    requires i <= |calls|
    ensures |Layout(calls, acts, i)| > 0 && !Layout(calls, acts, i)[0].Copyout?
  {
    if i < |calls| {
      var c := calls[i];
      var x := CallInstrs(c);
      assert |x| > 0;
      if |c.copyin| > 0 {
        assert x[0] == CopyinInstrs(c.copyin)[0];
      }
    }
  }

  /** Whatever is pending before call i is committed by what comes next, to the very end. */
  lemma {:induction false} LayoutRun(calls: seq<ExecCall<Arg>>, acts: seq<Action>, i: nat, s: State)
    requires i <= |calls| && Commit(s) == Between(calls, acts, i, i)
    ensures Run(s, ViewInstrs(Layout(calls, acts, i))) == Between(calls, acts, |calls|, |calls| + 1)
    decreases |calls| - i
  {
    var b := Between(calls, acts, i, i);
    var xs := ConfigInstrs(ActionsAt(acts, i));
    var ys := if i == |calls| then [Eof] else CallInstrs(calls[i]) + Layout(calls, acts, i + 1);
    LayoutHead(calls, acts, i);
    RunCommitFirst(s, ViewInstrs(Layout(calls, acts, i)));
    ViewConcat(xs, ys);
    RunConcat(b, ViewInstrs(xs), ViewInstrs(ys));
    ActionsAtBefore(acts, i);
    ConfigsRun(b, ActionsAt(acts, i));
    var b' := Run(b, ViewInstrs(xs));
    assert b' == Between(calls, acts, i, i + 1);
    if i == |calls| {
      EofRun(b');
    } else {
      LayoutStep(calls, acts, i, b');
    }
  }

  lemma {:induction false} EofRun(s: State)
    requires s.call == FRESH
    ensures Run(s, ViewInstrs([Eof])) == s
  {
    var xs := ViewInstrs([Eof]);
    assert xs == [Eof];
    assert Run(Step(s, xs[0]), xs[1..]) == Step(s, xs[0]);
  }

  lemma {:induction false} LayoutStep(calls: seq<ExecCall<Arg>>, acts: seq<Action>, i: nat, b: State)
    requires i < |calls| && b == Between(calls, acts, i, i + 1)
    ensures Run(b, ViewInstrs(CallInstrs(calls[i]) + Layout(calls, acts, i + 1))) ==
            Between(calls, acts, |calls|, |calls| + 1)
    decreases |calls| - i, 0
  {
    var xs, ys := CallInstrs(calls[i]), Layout(calls, acts, i + 1);
    ViewConcat(xs, ys);
    RunConcat(b, ViewInstrs(xs), ViewInstrs(ys));
    CallRun(b, calls[i]);
    assert ViewCalls(calls[..i]) + [ViewCall(calls[i])] == ViewCalls(calls[..i + 1]);
    LayoutRun(calls, acts, i + 1, Run(b, ViewInstrs(xs)));
  }

  ghost predicate ValidStream(t: Target, xs: seq<Instr<Arg>>) {
    && |xs| > 0 && xs[|xs| - 1].Eof?
    && (forall i :: 0 <= i < |xs| ==> ValidInstr(t, xs[i]))
    && (forall i :: 0 <= i < |xs| - 1 ==> !xs[i].Eof?)
  }

  function InstrParser(t: Target): (p: Parser<Instr<ExecArg>>)
    requires t.codec.Valid()
    ensures Forward(p)
  {
    (data: seq<byte>, i: nat) => ParseInstr(t, data, i)
  }

  lemma {:induction false} InstrReads(t: Target, x: Instr<Arg>)
    requires t.Valid() && ValidInstr(t, x)
    ensures Reads(InstrParser(t), InstrEncoder(t)(x), ViewInstr(x))
  {
    forall data: seq<byte>, i: nat | At(data, i, EncodeInstr(t, x))
      ensures ParseInstr(t, data, i) == Some(Item(ViewInstr(x), i + |EncodeInstr(t, x)|))
    {
      InstrRoundTrip(t, data, i, x);
    }
  }

  /** The instructions vs follow each other in data from position i on. */
  ghost predicate Chain(t: Target, data: seq<byte>, i: nat, vs: seq<Instr<ExecArg>>)
    requires t.codec.Valid()
    decreases |vs|
  {
    && |vs| > 0
    && var r := ParseInstr(t, data, i);
       r.Some? && r.value.val == vs[0] && (|vs| == 1 || Chain(t, data, r.value.next, vs[1..]))
  }

  lemma {:induction false} ManyChain(t: Target, data: seq<byte>, i: nat, vs: seq<Instr<ExecArg>>, k: nat)
    requires t.codec.Valid() && |vs| > 0 && ParseMany(InstrParser(t), data, i, |vs|) == Some(Item(vs, k))
    ensures Chain(t, data, i, vs)
    decreases |vs|
  {
    assert vs == [vs[0]] + vs[1..];
    HeadThenRest(InstrParser(t), data, i, vs[0], vs[1..], k);
    if |vs| > 1 {
      ManyChain(t, data, ParseInstr(t, data, i).value.next, vs[1..], k);
    }
  }

  lemma {:induction false} StreamReads(t: Target, xs: seq<Instr<Arg>>, vs: seq<Instr<ExecArg>>)
    requires t.Valid() && vs == ViewInstrs(xs)
    requires forall j :: 0 <= j < |xs| ==> ValidInstr(t, xs[j])
    ensures forall j :: 0 <= j < |xs| ==> Reads(InstrParser(t), InstrEncoder(t)(xs[j]), vs[j])
  {
    forall j | 0 <= j < |xs| ensures Reads(InstrParser(t), InstrEncoder(t)(xs[j]), vs[j]) {
      InstrReads(t, xs[j]);
    }
  }

  lemma {:induction false} StreamChain(t: Target, data: seq<byte>, i: nat, xs: seq<Instr<Arg>>)
    requires t.Valid() && |xs| > 0 && At(data, i, Many(InstrEncoder(t), xs))
    requires forall j :: 0 <= j < |xs| ==> ValidInstr(t, xs[j])
    ensures Chain(t, data, i, ViewInstrs(xs))
  {
    var vs := ViewInstrs(xs);
    var k := i + |Many(InstrEncoder(t), xs)|;
    StreamReads(t, xs, vs);
    ManyParses(InstrEncoder(t), InstrParser(t), data, i, xs, vs, |vs|, k);
    ManyChain(t, data, i, vs, k);
  }

  lemma {:induction false} ChainParses(t: Target, data: seq<byte>, i: nat, s: State, vs: seq<Instr<ExecArg>>)
    requires t.codec.Valid() && Chain(t, data, i, vs)
    requires vs[|vs| - 1].Eof? && forall j :: 0 <= j < |vs| - 1 ==> !vs[j].Eof?
    ensures Parse(t, data, i, s) == Some(Run(s, vs))
    decreases |vs|
  {
    if |vs| > 1 {
      ChainParses(t, data, ParseInstr(t, data, i).value.next, Step(s, vs[0]), vs[1..]);
    }
  }

  lemma {:induction false} ParseRuns(t: Target, data: seq<byte>, i: nat, s: State, xs: seq<Instr<Arg>>)
    requires t.Valid() && ValidStream(t, xs) && At(data, i, Many(InstrEncoder(t), xs))
    ensures Parse(t, data, i, s) == Some(Run(s, ViewInstrs(xs)))
  {
    StreamChain(t, data, i, xs);
    ChainParses(t, data, i, s, ViewInstrs(xs));
  }

  ghost predicate Inner(t: Target, xs: seq<Instr<Arg>>) {
    forall i :: 0 <= i < |xs| ==> ValidInstr(t, xs[i]) && !xs[i].Eof?
  }

  lemma {:induction false} CallInstrsInner(t: Target, c: ExecCall<Arg>)
    requires ValidCall(t, c)
    ensures Inner(t, CallInstrs(c))
  {
    assert Inner(t, CopyinInstrs(c.copyin));
    assert Inner(t, PropsInstrs(c.props));
    assert Inner(t, [Call(c.id, c.index, c.args)]);
    assert Inner(t, CopyoutInstrs(c.copyout));
  }

  lemma {:induction false} InnerBefore(t: Target, xs: seq<Instr<Arg>>, ys: seq<Instr<Arg>>)
    requires Inner(t, xs) && ValidStream(t, ys)
    ensures ValidStream(t, xs + ys)
  {
  }

  lemma {:induction false} LayoutValid(t: Target, calls: seq<ExecCall<Arg>>, acts: seq<Action>, i: nat)
    requires i <= |calls| && forall j :: 0 <= j < |calls| ==> ValidCall(t, calls[j])
    ensures ValidStream(t, Layout(calls, acts, i))
    decreases |calls| - i
  {
    ConfigInner(t, ActionsAt(acts, i));
    if i < |calls| {
      LayoutValid(t, calls, acts, i + 1);
      CallInstrsInner(t, calls[i]);
      InnerBefore(t, CallInstrs(calls[i]), Layout(calls, acts, i + 1));
      InnerBefore(t, ConfigInstrs(ActionsAt(acts, i)), CallInstrs(calls[i]) + Layout(calls, acts, i + 1));
    } else {
      InnerBefore(t, ConfigInstrs(ActionsAt(acts, i)), [Eof]);
    }
  }

  lemma {:induction false} ConfigInner(t: Target, acts: seq<Action>)
    ensures Inner(t, ConfigInstrs(acts))
  {
  }

  // ----- the order of actions -----

  lemma {:induction false} FullKeyIs(a: Action, k: seq<int>)
    ensures FullKey()(a) == k <==> |k| == 3 && k[0] == a.before && ParamKey()(a) == k[1..]
    ensures BeforeKey()(a) == [a.before]
  {
    if |k| == 3 {
      assert k == [k[0], k[1], k[2]] && k[1..] == [k[1], k[2]];
    }
    assert [a.before, a.param as int, a.value as int][1..] == [a.param as int, a.value as int];
  }

  lemma {:induction false} FullKeyLess(a: Action, b: Action)
    ensures Less(FullKey()(a), FullKey()(b)) <==>
            a.before < b.before || (a.before == b.before && Less(ParamKey()(a), ParamKey()(b)))
  {
    assert FullKey()(a)[1..] == ParamKey()(a) && FullKey()(b)[1..] == ParamKey()(b);
  }

  /** Actions in front of call i have exactly the groups of all actions with that position. */
  lemma {:induction false} GroupAt(acts: seq<Action>, i: int, k: seq<int>)
    ensures Group(ActionsAt(acts, i), FullKey(), k) ==
            if |k| == 3 && k[0] == i then Group(acts, FullKey(), k) else []
  {
    ActionsAtBefore(acts, i);
    var here := ActionsAt(acts, i);
    forall a | a in here ensures FullKey()(a) == k <==> |k| == 3 && k[0] == i && ParamKey()(a) == k[1..] {
      FullKeyIs(a, k);
    }
    if |k| == 3 && k[0] == i {
      var g := Group(acts, BeforeKey(), [i]);
      GroupSame(here, ParamKey(), k[1..], FullKey(), k);
      SortIsStable(g, ParamKey());
      assert Group(here, ParamKey(), k[1..]) == Group(g, ParamKey(), k[1..]);
      forall a | a in acts
        ensures FullKey()(a) == k <==> BeforeKey()(a) == [i] && ParamKey()(a) == k[1..]
      {
        FullKeyIs(a, k);
        assert [a.before] == [i] <==> a.before == i by {
          assert [a.before][0] == a.before && [i][0] == i;
        }
      }
      GroupNest(acts, BeforeKey(), [i], ParamKey(), k[1..], FullKey(), k);
    } else {
      GroupNone(here, FullKey(), k);
    }
  }

  /** The actions up to call m with key k, out of all actions. */
  ghost predicate GroupedTo(acts: seq<Action>, u: seq<Action>, m: nat, k: seq<int>) {
    Group(u, FullKey(), k) == if |k| == 3 && 0 <= k[0] < m then Group(acts, FullKey(), k) else []
  }

  lemma {:induction false} GroupUpTo(acts: seq<Action>, m: nat, k: seq<int>)
    ensures GroupedTo(acts, ActionsUpTo(acts, m), m, k)
  {
    if m > 0 {
      GroupUpTo(acts, m - 1, k);
      GroupStep(acts, ActionsUpTo(acts, m - 1), m - 1, k);
    }
  }

  lemma {:induction false} GroupStep(acts: seq<Action>, u: seq<Action>, m: nat, k: seq<int>)
    requires GroupedTo(acts, u, m, k)
    ensures GroupedTo(acts, u + ActionsAt(acts, m), m + 1, k)
  {
    GroupAt(acts, m, k);
    GroupNext(u, ActionsAt(acts, m), m, k, Group(acts, FullKey(), k));
  }

  lemma {:induction false} GroupNext(u: seq<Action>, v: seq<Action>, m: nat, k: seq<int>, g: seq<Action>)
    requires Group(u, FullKey(), k) == if |k| == 3 && 0 <= k[0] < m then g else []
    requires Group(v, FullKey(), k) == if |k| == 3 && k[0] == m then g else []
    ensures Group(u + v, FullKey(), k) == if |k| == 3 && 0 <= k[0] < m + 1 then g else []
  {
    GroupConcat(u, v, FullKey(), k);
    assert g + [] == g && [] + g == g;
  }

  ghost predicate AllBefore(acts: seq<Action>, b: int) { forall a :: a in acts ==> a.before < b }
  ghost predicate AllAt(acts: seq<Action>, b: int) { forall a :: a in acts ==> a.before == b }

  lemma {:induction false} UpToBefore(acts: seq<Action>, m: nat)
    ensures AllBefore(ActionsUpTo(acts, m), m)
  {
    if m > 0 {
      UpToBefore(acts, m - 1);
      ActionsAtBefore(acts, m - 1);
    }
  }

  lemma {:induction false} UpToSorted(acts: seq<Action>, m: nat)
    ensures Sorted(ActionsUpTo(acts, m), FullKey())
  {
    if m > 0 {
      UpToSorted(acts, m - 1);
      NextSorted(acts, m - 1, ActionsUpTo(acts, m - 1), ActionsAt(acts, m - 1));
    }
  }

  lemma {:induction false} NextSorted(acts: seq<Action>, m: nat, u: seq<Action>, v: seq<Action>)
    requires u == ActionsUpTo(acts, m) && v == ActionsAt(acts, m) && Sorted(u, FullKey())
    ensures Sorted(u + v, FullKey())
  {
    UpToBefore(acts, m);
    ActionsAtBefore(acts, m);
    ActionsAtSorted(acts, m);
    SortedBehind(u, v, m);
  }

  lemma {:induction false} ActionsAtSorted(acts: seq<Action>, i: int)
    ensures Sorted(ActionsAt(acts, i), ParamKey())
  {
    SortIsStable(Group(acts, BeforeKey(), [i]), ParamKey());
  }

  /** Actions for call b, sorted by parameter and value, behind sorted actions for earlier calls. */
  lemma {:induction false} SortedBehind(u: seq<Action>, v: seq<Action>, b: int)
    requires Sorted(u, FullKey()) && AllBefore(u, b) && Sorted(v, ParamKey()) && AllAt(v, b)
    ensures Sorted(u + v, FullKey())
  {
    var w := u + v;
    forall i, j | 0 <= i < j < |w| ensures !Less(FullKey()(w[j]), FullKey()(w[i])) {
      FullKeyLess(w[j], w[i]);
      assert i < |u| ==> w[i] == u[i] && w[i] in u;
      assert i >= |u| ==> w[i] == v[i - |u|] && w[i] in v;
      assert j < |u| ==> w[j] == u[j];
      assert j >= |u| ==> w[j] == v[j - |u|] && w[j] in v;
    }
  }

  /** Grouping by call and sorting each group is one stable sort of all actions. */
  lemma {:induction false} ActionsInOrder(acts: seq<Action>, n: nat)
    requires forall a :: a in acts ==> 0 <= a.before <= n
    ensures ActionsUpTo(acts, n + 1) == Sort(acts, FullKey())
  {
    var u := ActionsUpTo(acts, n + 1);
    UpToSorted(acts, n + 1);
    forall k ensures Group(u, FullKey(), k) == Group(acts, FullKey(), k) {
      GroupUpTo(acts, n + 1, k);
      if !(|k| == 3 && 0 <= k[0] < n + 1) {
        forall a | a in acts ensures FullKey()(a) != k { FullKeyIs(a, k); }
        GroupNone(acts, FullKey(), k);
      }
    }
    SortIsStable(acts, FullKey());
    StableSortUnique(u, Sort(acts, FullKey()), acts, FullKey());
  }

  /**
   Decoding a serialized program gives back its calls, its variables and all its actions in stable
   (call, parameter, value) order; it is accepted exactly when every variable that a call produces
   is covered by the variables that arguments mention.
   */
  lemma {:induction false} ExecRoundTrip(t: Target, calls: seq<ExecCall<Arg>>, acts: seq<Action>)
    requires t.Valid() && |calls| < TWO64
    requires forall j :: 0 <= j < |calls| ==> ValidCall(t, calls[j])
    requires forall a :: a in acts ==> 0 <= a.before <= |calls|
    ensures Deserialize(t, Serialize(t, calls, acts)) ==
            var n := |calls|;
            if |Vars(calls, n)| == NumVars(calls, n)
            then Some(ExecProg(ViewCalls(calls), Vars(calls, n), Sort(acts, FullKey())))
            else None
  {
    var n := |calls|;
    var data := Serialize(t, calls, acts);
    var e := t.codec.enc(Wrap(n));
    var xs := Layout(calls, acts, 0);
    assert data[0..|data|] == data;
    AtSplit(data, 0, e, Many(InstrEncoder(t), xs));
    assert Reads(t.codec.read, e, Wrap(n));
    LayoutValid(t, calls, acts, 0);
    ParseRuns(t, data, |e|, START, xs);
    assert ViewCalls(calls[..0]) == [];
    LayoutRun(calls, acts, 0, START);
    assert calls[..n] == calls;
    ActionsInOrder(acts, n);
    WrapSmall(n);
  }
}
