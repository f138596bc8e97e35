/**
 The decoder of the exec format, execDecoder in prog/decodeexec.go: it reads the data word by word
 and keeps a call and a list of variables while it goes.
 */
module ExecCode {
  import opened Basics
  import opened Bits
  import opened Varint
  import opened Framing
  import opened ExecFormat
  import opened ExecStream

  /**
   The codec is the varint codec. The fact sits behind a quantifier so that proofs above the level of
   words use only codec.Valid() and never unfold the varint code.
   */
  ghost predicate IsVarint(c: Codec) {
    c.Valid() && forall u: bool {:trigger Open(u)} :: Open(u) ==> c == VARINT
  }

  lemma {:induction false} VarintCodec(c: Codec)
    requires c == VARINT
    ensures IsVarint(c)
  {
    VarintValid();
  }

  /** read, on the data from position pos on */
  method ReadWord(c: Codec, data: seq<byte>, pos: nat) returns (r: Option<Item<uint64>>)
    requires IsVarint(c) && pos <= |data|
    ensures r == c.read(data, pos)
  {
    assert Open(true);
    r := GoVarint(data, pos);
  }

  // ----- decoder -----

  class ExecDecoder {
    const target: Target
    const data: seq<byte>
    var pos: nat
    var numVars: nat
    var vars: seq<uint64>
    var call: Pending
    var calls: seq<ExecCall<ExecArg>>
    var actions: seq<Action>

    constructor (target: Target, data: seq<byte>)
      requires IsVarint(target.codec)
      ensures this.target == target && this.data == data && pos == 0 && Valid()
      ensures Abs() == START
    {
      this.target, this.data := target, data;
      pos, numVars, vars, call, calls, actions := 0, 0, [], FRESH, [], [];
    }

    ghost predicate Valid()
      reads this`pos
    {
      IsVarint(target.codec) && pos <= |data|
    }

    ghost function Abs(): State
      reads this`numVars, this`vars, this`call, this`calls, this`actions
    {
      State(numVars, vars, call, calls, actions)
    }

    /** read */
    method Word() returns (r: Option<uint64>)
      requires Valid()
      modifies this`pos
      ensures Valid()
      ensures match target.codec.read(data, old(pos))
              case None => r.None?
              case Some(Item(v, next)) => r == Some(v) && pos == next
    {
      var item := ReadWord(target.codec, data, pos);
      if item.None? { return None; }
      pos := item.value.next;
      return Some(item.value.val);
    }

    /** n words in a row. */
    method WordList(n: nat) returns (r: Option<seq<uint64>>)
      requires Valid()
      modifies this`pos
      ensures Valid()
      ensures match ReadWords(target.codec, data, old(pos), n)
              case None => r.None?
              case Some(Item(ws, next)) => r == Some(ws) && pos == next
    {
      var ws := [];
      ghost var all := ReadWords(target.codec, data, pos, n);
      GatheredStart(all);
      var i := 0;
      while i < n
        invariant 0 <= i == |ws| <= n && Valid()
        invariant Gathered(ws, ReadWords(target.codec, data, pos, n - i)) == all
      {
        ghost var item := target.codec.read(data, pos);
        GatheredNext(target.codec.read, data, pos, n - i, ws);
        var w := Word();
        if w.None? { return None; }
        assert item == Some(Item(w.value, pos));
        ws := ws + [w.value];
        i := i + 1;
      }
      assert ws + [] == ws;
      return Some(ws);
    }

    /** readBlob */
    method Blob(size: nat) returns (r: Option<seq<byte>>)
      requires Valid()
      modifies this`pos
      ensures Valid()
      ensures r.None? <==> |data| - old(pos) < size
      ensures r.Some? ==> pos == old(pos) + size && r.value == data[old(pos)..pos]
    {
      if |data| - pos < size { return None; }
      r := Some(data[pos..pos + size]);
      pos := pos + size;
    }

    /** readArg */
    method ReadArg() returns (r: Option<ExecArg>)
      requires Valid()
      modifies this`pos, this`vars
      ensures Valid()
      ensures match ParseArg(target, data, old(pos))
              case None => r.None?
              case Some(Item(a, next)) => r == Some(a) && pos == next && vars == NoteVar(old(vars), a)
    {
      var typ := Word();
      if typ.None? || typ.value > ARG_CSUM { return None; }
      r := ArgBody(typ.value);
      if r.Some? { SetVar(r.value); }
    }

    /** A result argument sets the default of its variable. */
    method SetVar(a: ExecArg)
      modifies this`vars
      ensures vars == NoteVar(old(vars), a)
    {
      if !a.ExecResult? { return; }
      while |vars| <= a.index
        invariant |old(vars)| <= |vars| <= Max(|old(vars)|, a.index + 1)
        invariant vars == old(vars) + Zeros(|vars| - |old(vars)|)
      {
        vars := vars + [0];
      }
      vars := vars[a.index := a.deflt];
    }

    method ArgBody(typ: uint64) returns (r: Option<ExecArg>)
      requires Valid() && typ <= ARG_CSUM
      modifies this`pos
      ensures Valid()
      ensures match ParseArgBody(target, data, typ, old(pos))
              case None => r.None?
              case Some(Item(a, next)) => r == Some(a) && pos == next
    {
      var list := WordList(ArgArity(typ));
      if list.None? { return None; }
      r := ArgTailOf(typ, list.value);
    }

    method ArgTailOf(typ: uint64, ws: seq<uint64>) returns (r: Option<ExecArg>)
      requires Valid() && typ <= ARG_CSUM && |ws| == ArgArity(typ)
      modifies this`pos
      ensures Valid()
      ensures match ParseArgTail(target, data, typ, ws, old(pos))
              case None => r.None?
              case Some(Item(a, next)) => r == Some(a) && pos == next
    {
      if typ == ARG_CONST {
        return Some(UnpackConst(ws[0], ws[1]));
      } else if typ == ARG_ADDR32 || typ == ARG_ADDR64 {
        var size := 4;
        if typ == ARG_ADDR64 { size := 8; }
        return Some(ExecConst(size, 0, Wrap(ws[0] + target.dataOffset), 0, 0, 0));
      } else if typ == ARG_RESULT {
        return Some(UnpackResult(ws[0], ws[1], ws[2], ws[3], ws[4]));
      } else if typ == ARG_DATA {
        var blob := Blob(ws[0] % READABLE);
        if blob.None? { return None; }
        return Some(ExecData(blob.value, ws[0] >= READABLE));
      } else if ws[1] != CSUM_INET {
        return None;
      } else {
        var list := WordList(3 * (ws[2] as int));
        if list.None? { return None; }
        return Some(ExecCsum(ws[0], ChunksFrom(target, list.value)));
      }
    }

    method ReadCallArg() returns (r: Option<ExecArg>)
      requires Valid()
      modifies this`pos, this`vars
      ensures Valid()
      ensures match CallArgParser(target)(data, old(pos))
              case None => r.None?
              case Some(Item(a, next)) => r == Some(a) && pos == next && vars == NoteVar(old(vars), a)
    {
      var a := ReadArg();
      if a.None? || a.value.ExecData? || a.value.ExecCsum? { return None; }
      return a;
    }

    /** parse is the parser of call arguments, behind a quantifier like the codec. */
    ghost predicate IsCallArgParser(parse: Parser<ExecArg>) {
      target.codec.Valid() && Forward(parse) &&
      forall u: bool {:trigger Open(u)} :: Open(u) ==> parse == CallArgParser(target)
    }

    method NextCallArg(ghost parse: Parser<ExecArg>) returns (r: Option<ExecArg>)
      requires Valid() && IsCallArgParser(parse)
      modifies this`pos, this`vars
      ensures Valid()
      ensures match parse(data, old(pos))
              case None => r.None?
              case Some(Item(a, next)) => r == Some(a) && pos == next && vars == NoteVar(old(vars), a)
    {
      assert Open(true);
      r := ReadCallArg();
    }

    method CallArgsLoop(n: nat, ghost parse: Parser<ExecArg>) returns (r: Option<seq<ExecArg>>)
      requires Valid() && IsCallArgParser(parse)
      modifies this`pos, this`vars
      ensures Valid()
      ensures match ParseMany(parse, data, old(pos), n)
              case None => r.None?
              case Some(Item(args, next)) => r == Some(args) && pos == next && vars == NoteVars(old(vars), args)
    {
      var args := [];
      ghost var all := ParseMany(parse, data, pos, n);
      GatheredStart(all);
      var i := 0;
      while i < n
        invariant 0 <= i == |args| <= n && Valid()
        invariant Gathered(args, ParseMany(parse, data, pos, n - i)) == all
        invariant vars == NoteVars(old(vars), args)
      {
        ghost var item := parse(data, pos);
        GatheredNext(parse, data, pos, n - i, args);
        var a := NextCallArg(parse);
        if a.None? { return None; }
        assert item == Some(Item(a.value, pos));
        NoteSnoc(old(vars), args, a.value);
        args := args + [a.value];
        i := i + 1;
      }
      assert args + [] == args;
      return Some(args);
    }

    /** The arguments of a call: constants, addresses and results only. */
    method CallArgs(n: nat) returns (r: Option<seq<ExecArg>>)
      requires Valid()
      modifies this`pos, this`vars
      ensures Valid()
      ensures match ParseMany(CallArgParser(target), data, old(pos), n)
              case None => r.None?
              case Some(Item(args, next)) => r == Some(args) && pos == next && vars == NoteVars(old(vars), args)
    {
      r := CallArgsLoop(n, CallArgParser(target));
    }

    /** commitCall */
    method CommitCall()
      modifies this`numVars, this`call, this`calls
      ensures Abs() == Commit(old(Abs()))
    {
      if call.id.None? { return; }
      if call.index != NO_COPYOUT && numVars < call.index + 1 { numVars := call.index + 1; }
      ghost var n := numVars;
      var i := 0;
      while i < |call.copyout|
        invariant 0 <= i <= |call.copyout| && call == old(call) && calls == old(calls)
        invariant numVars == CopyoutVars(n, call.copyout[..i])
      {
        assert call.copyout[..i + 1][..i] == call.copyout[..i];
        numVars := Max(numVars, Wrap(call.copyout[i].index + 1));
        i := i + 1;
      }
      assert call.copyout[..i] == call.copyout;
      calls := calls + [ExecCall(call.copyin, call.props, call.id.value, call.index, call.args, call.copyout)];
      call := FRESH;
    }

    /** One turn of the loop of parse; stop is set at the end of the program or on an error. */
    method ParseOne() returns (ok: bool, stop: bool)
      requires Valid()
      modifies this`pos, this`numVars, this`vars, this`call, this`calls, this`actions
      ensures Valid()
      ensures match ParseInstr(target, data, old(pos))
              case None => !ok
              case Some(Item(x, next)) => ok && stop == x.Eof? && pos == next && Abs() == Step(old(Abs()), x)
    {
      var op := Word();
      if op.None? { return false, true; }
      if op.value < INSTR_CONFIG && op.value >= target.syscalls { return false, true; }
      var list := WordList(InstrArity(op.value));
      if list.None? { return false, true; }
      ok := Apply(op.value, list.value);
      stop := !ok || op.value == INSTR_EOF;
    }

    method CopyinInstr(addr: uint64) returns (ok: bool)
      requires Valid()
      modifies this`pos, this`numVars, this`vars, this`call, this`calls
      ensures Valid()
      ensures match ParseArg(target, data, old(pos))
              case None => !ok
              case Some(Item(a, next)) => ok && pos == next && Abs() == Step(old(Abs()), Copyin(addr, a))
    {
      CommitCall();
      var a := ReadArg();
      if a.None? { return false; }
      call := call.(copyin := call.copyin + [ExecCopyin(addr, a.value)]);
      return true;
    }

    method CallInstr(id: uint64, index: uint64, n: nat) returns (ok: bool)
      requires Valid()
      modifies this`pos, this`numVars, this`vars, this`call, this`calls
      ensures Valid()
      ensures match ParseMany(CallArgParser(target), data, old(pos), n)
              case None => !ok
              case Some(Item(args, next)) => ok && pos == next && Abs() == Step(old(Abs()), Call(id, index, args))
    {
      CommitCall();
      var args := CallArgs(n);
      if args.None? { return false; }
      call := call.(id := Some(id), index := index, args := call.args + args.value);
      return true;
    }

    /** Instructions that consist of words only. */
    method PlainInstr(op: uint64, ws: seq<uint64>)
      requires op == INSTR_EOF || op == INSTR_COPYOUT || op == INSTR_SETPROPS || op == INSTR_CONFIG
      requires |ws| == InstrArity(op)
      modifies this`numVars, this`call, this`calls, this`actions
      ensures Abs() == Step(old(Abs()), PlainOf(target, op, ws))
    {
      if op == INSTR_COPYOUT {
        call := call.(copyout := call.copyout + [ExecCopyout(ws[0], Wrap(ws[1] + target.dataOffset), ws[2])]);
        return;
      }
      CommitCall();
      if op == INSTR_SETPROPS {
        call := call.(props := Props(ws[0], call.props.async || ws[1] == 1, ws[2]));
      } else if op == INSTR_CONFIG {
        actions := actions + [Action(|calls|, ws[0], ws[1], ws[2])];
      }
    }

    /** The effect of an instruction whose leading words are read. */
    method Apply(op: uint64, ws: seq<uint64>) returns (ok: bool)
      requires Valid() && |ws| == InstrArity(op)
      modifies this`pos, this`numVars, this`vars, this`call, this`calls, this`actions
      ensures Valid()
      ensures match ParseInstrTail(target, data, op, ws, old(pos))
              case None => !ok
              case Some(Item(x, next)) =>
                ok && x.Eof? == (op == INSTR_EOF) && pos == next && Abs() == Step(old(Abs()), x)
    {
      if op == INSTR_COPYIN {
        ok := CopyinInstr(Wrap(ws[0] + target.dataOffset));
      } else if op >= INSTR_CONFIG {
        PlainInstr(op, ws);
        ok := true;
      } else {
        ok := CallInstr(op, ws[0], ws[1]);
      }
    }
  }

  function PlainOf(t: Target, op: uint64, ws: seq<uint64>): Instr<ExecArg>
    requires |ws| == InstrArity(op)
    requires op == INSTR_EOF || op == INSTR_COPYOUT || op == INSTR_SETPROPS || op == INSTR_CONFIG
  {
    if op == INSTR_COPYOUT then Copyout(ws[0], Wrap(ws[1] + t.dataOffset), ws[2])
    else if op == INSTR_SETPROPS then SetProps(ws[0], ws[1], ws[2])
    else if op == INSTR_CONFIG then Config(ws[0], ws[1], ws[2])
    else Eof
  }

  /** DeserializeExec */
  method DeserializeExec(target: Target, data: seq<byte>) returns (r: Option<ExecProg>)
    requires target.codec == VARINT
    ensures target.codec.Valid() && r == Deserialize(target, data)
  {
    VarintCodec(target.codec);
    r := Decode(target, data);
  }

  method Decode(target: Target, data: seq<byte>) returns (r: Option<ExecProg>)
    requires IsVarint(target.codec)
    ensures r == Deserialize(target, data)
  {
    var dec := new ExecDecoder(target, data);
    var ncalls := dec.Word();
    if ncalls.None? { return None; }
    ghost var want := Parse(target, data, dec.pos, START);
    var stop := false;
    while !stop
      invariant dec.Valid() && dec.target == target && dec.data == data
      invariant !stop ==> Parse(target, data, dec.pos, dec.Abs()) == want
      invariant stop ==> want == Some(dec.Abs())
      decreases if stop then 0 else 1, |data| - dec.pos
    {
      var ok;
      ok, stop := dec.ParseOne();
      if !ok { return None; }
    }
    if ncalls.value != |dec.calls| { return None; }
    if |dec.vars| != dec.numVars { return None; }
    return Some(ExecProg(dec.calls, dec.vars, dec.actions));
  }

  ghost function Gathered<V>(vs: seq<V>, rest: Option<Item<seq<V>>>): Option<Item<seq<V>>> {
    match rest
    case None => None
    case Some(Item(ws, k)) => Some(Item(vs + ws, k))
  }

  lemma {:induction false} GatheredStart<V>(rest: Option<Item<seq<V>>>)
    ensures Gathered([], rest) == rest
  {
    if rest.Some? { assert [] + rest.value.val == rest.value.val; }
  }

  lemma {:induction false} GatheredNext<V>(parse: Parser<V>, data: seq<byte>, p: nat, n: nat, vs: seq<V>)
    requires Forward(parse) && n > 0
    ensures Gathered(vs, ParseMany(parse, data, p, n)) ==
            match parse(data, p)
            case None => None
            case Some(Item(v, q)) => Gathered(vs + [v], ParseMany(parse, data, q, n - 1))
  {
    match parse(data, p)
    case None =>
    case Some(Item(v, q)) =>
      match ParseMany(parse, data, q, n - 1)
      case None =>
      case Some(Item(ws, _)) => assert vs + ([v] + ws) == vs + [v] + ws;
  }

  lemma {:induction false} NoteSnoc(vars: seq<uint64>, args: seq<ExecArg>, a: ExecArg)
    ensures NoteVars(vars, args + [a]) == NoteVar(NoteVars(vars, args), a)
    decreases |args|
  {
    if |args| > 0 {
      assert (args + [a])[1..] == args[1..] + [a];
      NoteSnoc(NoteVar(vars, args[0]), args[1..], a);
    }
  }
}
