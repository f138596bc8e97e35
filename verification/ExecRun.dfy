/**
 The executor's way through a serialized program: the reading loop of execute_one, read_arg and
 read_result in executor/executor.cc, with calls that complete at any time behind it.
 */
module ExecRun {
  import opened Basics
  import opened Bits
  import opened Varint
  import opened Framing
  import opened ExecFormat
  import opened ExecStream
  import opened ExecCode
  import opened ExecWriter
  import opened ExecScan
  import S = Squash

  const MAX_ARGS: nat := 9

  // ----- values of result arguments -----

  /** v, divided by d, is q with remainder m. */
  predicate Divided(v: nat, d: nat, q: nat, m: nat) { v == q * d + m && m < d }

  /**
   What a result argument promises: the default if nothing was recorded, else the recorded value,
   divided if a divisor is given, and then increased, modulo 2^64.
   */
  ghost predicate Promised(s: Slot, div: uint64, add: uint64, deflt: uint64, r: uint64) {
    if !s.executed then r == deflt
    else if div == 0 then r == (s.val + add) % 0x1_0000_0000_0000_0000
    else exists q: nat, m: nat :: Divided(s.val, div, q, m) && r == (q + add) % 0x1_0000_0000_0000_0000
  }

  /** read_result keeps the promise, and nothing else does. */
  lemma {:induction false} YieldIsPromised(s: Slot, div: uint64, add: uint64, deflt: uint64, r: uint64)
    ensures Promised(s, div, add, deflt, r) <==> r == Yield(s, div, add, deflt)
  {
    if s.executed && div != 0 {
      assert Divided(s.val, div, s.val / div, s.val % div);
      forall q: nat, m: nat | Divided(s.val, div, q, m) ensures q == s.val / div {
        QuotientIs(s.val, div, q, m);
      }
    }
  }

  /** The value that a result argument promises. */
  ghost function PromisedValue(s: Slot, div: uint64, add: uint64, deflt: uint64): (r: uint64)
    ensures Promised(s, div, add, deflt, r)
  {
    YieldIsPromised(s, div, add, deflt, Yield(s, div, add, deflt));
    var r: uint64 :| Promised(s, div, add, deflt, r);
    r
  }

  /** read_result: the recorded value, or the default if nothing was recorded. */
  function Yield(s: Slot, div: uint64, add: uint64, deflt: uint64): uint64 {
    if !s.executed then deflt else Wrap((if div != 0 then s.val / div else s.val) + add)
  }

  /** What a constant is for process pid: a per-process value is spaced by its stride. */
  function ForProcess(value: uint64, stride: nat, pid: uint64): uint64 { Wrap(value + stride * pid) }

  predicate SwapSize(size: nat) { size == 2 || size == 4 || size == 8 }

  /** htobe16, htobe32, htobe64 on a little-endian host */
  function Swapped(v: uint64, size: nat): uint64
    requires SwapSize(size)
  {
    SwapBound(v, size);
    S.Swap(v, size)
  }

  lemma {:induction false} FromLeBound(bs: seq<byte>)
    ensures S.FromLe(bs) < Pow2(8 * |bs|)
  {
    if |bs| > 0 {
      FromLeBound(bs[1..]);
      S.PowEight(|bs|);
    }
  }

  lemma {:induction false} SwapBound(v: nat, size: nat)
    requires SwapSize(size)
    ensures S.Swap(v, size) < 0x1_0000_0000_0000_0000
  {
    FromLeBound(S.Reverse(S.Le(v, size)));
    WordPower(2);
    WordPower(4);
    WordPower(8);
  }

  lemma {:induction false} WordPower(n: nat)
    requires SwapSize(n)
    ensures Pow2(8 * n) <= 0x1_0000_0000_0000_0000
  {
    assert Pow2(0) == 1;
    S.PowEight(1);
    S.PowEight(2);
    S.PowEight(3);
    S.PowEight(4);
    S.PowEight(5);
    S.PowEight(6);
    S.PowEight(7);
    S.PowEight(8);
  }

  /** The value of an argument, in a register or to be stored in memory; blobs and checksums have none. */
  function Yields(slots: seq<Slot>, pid: uint64, register: bool, a: Arg): seq<uint64> {
    match a
    case Const(size, format, value, _, _, stride) =>
      var v := ForProcess(value, stride, pid);
      [if register && format == 1 && SwapSize(size) then Swapped(v, size) else v]
    case Addr(_, addr) => [addr]
    case Result(_, _, index, div, add, d) => if index < |slots| then [Yield(slots[index], div, add, d)] else []
    case _ => []
  }

  function AllYields(slots: seq<Slot>, pid: uint64, args: seq<Arg>): seq<uint64> {
    if |args| == 0 then []
    else AllYields(slots, pid, args[..|args| - 1]) + Yields(slots, pid, true, args[|args| - 1])
  }

  /** What an instruction reads: the arguments of a call, or an address and the value to store there. */
  function InstrYields(slots: seq<Slot>, pid: uint64, x: Instr<Arg>): seq<uint64> {
    match x
    case Copyin(addr, a) => [addr] + Yields(slots, pid, false, a)
    case Call(_, _, args) => AllYields(slots, pid, args)
    case _ => []
  }

  predicate GoodChunk(c: Chunk) {
    c.kind == CHUNK_DATA || (c.kind == CHUNK_CONST && (c.size == 2 || c.size == 4 || c.size == 8))
  }

  predicate GoodChunks(cs: seq<Chunk>) { forall i :: 0 <= i < |cs| ==> GoodChunk(cs[i]) }

  /** copyin: sizes of integers and of the text formats; bit fields only in integers. */
  predicate Stores(size: nat, format: nat, off: nat, len: nat) {
    match format
    case 0 => size == 1 || size == 2 || size == 4 || size == 8
    case 1 => size == 2 || size == 4 || size == 8
    case 2 => size == 20 && off == 0 && len == 0
    case 3 => size == 18 && off == 0 && len == 0
    case 4 => size == 23 && off == 0 && len == 0
    case _ => false
  }

  /** Arguments that the executor takes in memory, and in a register. */
  predicate Accepts(a: Arg, register: bool) {
    match a
    case Const(size, format, _, off, len, _) =>
      if register then off == 0 && len == 0 && (format == 0 || (format == 1 && (size == 2 || size == 4 || size == 8)))
      else Stores(size, format, off, len)
    case Addr(_, _) => true
    case Result(size, format, index, _, _, _) =>
      index < MAX_COMMANDS && if register then format == 0 else Stores(size, format, 0, 0)
    case Data(_, _) => !register
    case Csum(size, chunks) => !register && size == 2 && GoodChunks(chunks)
  }

  predicate AcceptsInstr(x: Instr<Arg>) {
    match x
    case Copyin(_, a) => Accepts(a, false)
    case Call(_, _, args) => |args| <= MAX_ARGS && forall i :: 0 <= i < |args| ==> Accepts(args[i], true)
    case _ => true
  }

  // ----- reading -----

  /** What schedule_call keeps of a call for its completion. */
  datatype Thread = Thread(index: uint64, copyoutPos: nat)

  datatype Outcome = More | Finished | Failed

  /** The return value -1 of a call that failed. */
  const CALL_FAILED: uint64 := 0xffff_ffff_ffff_ffff

  /** The table before the first completion. */
  function Nothing(): (r: seq<Slot>)
    ensures |r| == MAX_COMMANDS && forall i :: 0 <= i < MAX_COMMANDS ==> r[i] == Slot(false, 0)
  {
    seq(MAX_COMMANDS, _ => Slot(false, 0))
  }

  class Reader {
    const target: Target
    const data: seq<byte>
    const pid: uint64
    const results: array<Slot>
    var pos: nat
    var threads: seq<Thread>

    constructor (target: Target, data: seq<byte>, pid: uint64)
      requires IsVarint(target.codec)
      ensures this.target == target && this.data == data && this.pid == pid && pos == 0 && threads == []
      ensures fresh(results) && Ready() && results[..] == Nothing()
    {
      this.target, this.data, this.pid, pos, threads := target, data, pid, 0, [];
      results := new Slot[MAX_COMMANDS](_ => Slot(false, 0));
    }

    /** What every method needs: a readable codec and a position inside the data. */
    ghost predicate Ready()
      reads this`pos
    {
      IsVarint(target.codec) && pos <= |data| && results.Length == MAX_COMMANDS
    }

    /** read_input */
    method Word() returns (r: Option<uint64>)
      requires Ready()
      modifies this`pos
      ensures Ready()
      ensures match target.codec.read(data, old(pos))
              case None => r.None?
              case Some(Item(v, next)) => r == Some(v) && pos == next
    {
      var item := ReadExec(target.codec, data, pos);
      if item.None? { return None; }
      pos := item.value.next;
      return Some(item.value.val);
    }

    /** n words in a row. */
    method WordList(n: nat) returns (r: Option<seq<uint64>>)
      requires Ready()
      modifies this`pos
      ensures Ready()
      ensures match ReadWords(target.codec, data, old(pos), n)
              case None => r.None?
              case Some(Item(ws, next)) => r == Some(ws) && pos == next
    {
      var ws: seq<uint64> := [];
      ghost var all := ReadWords(target.codec, data, pos, n);
      GatheredStart(all);
      var i := 0;
      while i < n
        invariant 0 <= i == |ws| <= n && Ready()
        invariant Gathered(ws, ReadWords(target.codec, data, pos, n - i)) == all
      {
        ghost var item := target.codec.read(data, pos);
        GatheredNext(target.codec.read, data, pos, n - i, ws);
        var w := Word();
        if w.None? { return None; }
        assert item == Some(Item(w.value, pos));
        ws := ws + [w.value];
        i := i + 1;
      }
      assert ws + [] == ws;
      return Some(ws);
    }

    /** The words that stand at the position, known to be ws. */
    method Expect(n: nat, ghost ws: seq<uint64>) returns (r: seq<uint64>)
      requires Ready() && |ws| == n && At(data, pos, Words(target.codec, ws))
      modifies this`pos
      ensures Ready() && r == ws && pos == old(pos) + |Words(target.codec, ws)|
    {
      ManyRoundTrip(target.codec.enc, target.codec.read, data, pos, ws, ws);
      var x := WordList(n);
      return x.value;
    }

    /** The chunks of a checksum; false if one is bad. */
    method Chunks(n: nat, ghost cs: seq<Chunk>) returns (ok: bool)
      requires Ready() && |cs| == n && At(data, pos, Words(target.codec, ChunksWords(target, cs)))
      modifies this`pos
      ensures Ready() && (ok <==> GoodChunks(cs))
      ensures ok ==> pos == old(pos) + |Words(target.codec, ChunksWords(target, cs))|
    {
      ghost var start := pos;
      var i := 0;
      assert cs[0..] == cs;
      while i < n
        invariant 0 <= i <= n && Ready() && GoodChunks(cs[..i])
        invariant At(data, pos, Words(target.codec, ChunksWords(target, cs[i..])))
        invariant pos + |Words(target.codec, ChunksWords(target, cs[i..]))| ==
                  start + |Words(target.codec, ChunksWords(target, cs))|
      {
        ChunkFirst(target, data, pos, cs[i..]);
        assert cs[i..][0] == cs[i] && cs[i..][1..] == cs[i + 1..];
        var ws := Expect(3, ChunkWords(target, cs[i]));
        var kind, size := ws[0], ws[2];
        if kind != CHUNK_DATA {
          if kind != CHUNK_CONST { return false; }
          if size != 2 && size != 4 && size != 8 { return false; }
        }
        i := i + 1;
      }
      assert cs[..i] == cs && cs[i..] == [];
      return true;
    }

    /** read_result */
    method ReadResult(index: uint64, div: uint64, add: uint64, deflt: uint64) returns (r: Option<uint64>)
      requires results.Length == MAX_COMMANDS
      ensures r.Some? <==> index < MAX_COMMANDS
      ensures r.Some? ==> Promised(results[index], div, add, deflt, r.value)
      ensures r.Some? ==> r.value == Yield(results[index], div, add, deflt)
    {
      if index < MAX_COMMANDS {
        ghost var s := results[index];
        YieldIsPromised(s, div, add, deflt, Yield(s, div, add, deflt));
      }
      if index >= MAX_COMMANDS { return None; }
      var arg := deflt;
      if results[index].executed {
        arg := results[index].val;
        if div != 0 { arg := arg / div; }
        arg := Wrap(arg + add);
      }
      return Some(arg);
    }

    /** An argument in memory (execute_one) or in a register (read_arg), with its value. */
    method ReadArg(register: bool, ghost x: Arg) returns (ok: bool, vals: seq<uint64>)
      requires Ready() && ValidArg(x) && At(data, pos, EncodeArg(target, x))
      modifies this`pos
      ensures Ready() && (ok <==> Accepts(x, register))
      ensures ok ==> pos == old(pos) + |EncodeArg(target, x)| && vals == Yields(results[..], pid, register, x)
    {
      ghost var ws := ArgWords(target, x);
      AtSplit(data, pos, Words(target.codec, ws), ArgTail(target, x));
      FirstWord(target.codec, data, pos, ws);
      var head := Expect(1, [ws[0]]);
      var typ := head[0];
      vals := [];
      if typ == ARG_CONST {
        ok, vals := ConstArg(register, x);
      } else if typ == ARG_ADDR32 || typ == ARG_ADDR64 {
        var addr := Address(ws[1..], x.addr);
        ok, vals := true, [addr];
      } else if typ == ARG_RESULT {
        ok, vals := ResultArg(register, x);
      } else if register {
        ok := false;
      } else if typ == ARG_DATA {
        ok := DataArg(x);
      } else {
        ok := CsumArg(x);
      }
    }

    /** An offset into the data area, which begins at SYZ_DATA_OFFSET. */
    method Address(ghost ws: seq<uint64>, ghost addr: uint64) returns (r: uint64)
      requires Ready() && ws == [Wrap(addr - target.dataOffset)] && At(data, pos, Words(target.codec, ws))
      modifies this`pos
      ensures Ready() && r == addr && pos == old(pos) + |Words(target.codec, ws)|
    {
      var off := Expect(1, ws);
      OffsetBack(addr, target.dataOffset);
      return Wrap(off[0] + target.dataOffset);
    }

    /** A constant for a register: no bit field, and swapped if it is big-endian. */
    method InRegister(size: nat, bf: nat, off: nat, len: nat, val: uint64) returns (ok: bool, v: uint64)
      ensures ok <==> off == 0 && len == 0 && (bf == 0 || (bf == 1 && SwapSize(size)))
      ensures ok ==> v == if bf == 1 && SwapSize(size) then Swapped(val, size) else val
    {
      if off != 0 || len != 0 || (bf != 0 && bf != 1) { return false, 0; }
      if bf == 0 { return true, val; }
      if !SwapSize(size) { return false, 0; }
      return true, Swapped(val, size);
    }

    /** read_const_arg, and swap for a register */
    method ConstArg(register: bool, ghost x: Arg) returns (ok: bool, vals: seq<uint64>)
      requires Ready() && ValidArg(x) && x.Const? && At(data, pos, Words(target.codec, ArgWords(target, x)[1..]))
      modifies this`pos
      ensures Ready() && (ok <==> Accepts(x, register)) && (ok ==> vals == Yields(results[..], pid, register, x))
      ensures pos == old(pos) + |Words(target.codec, ArgWords(target, x)[1..])|
    {
      var ws := Expect(2, ArgWords(target, x)[1..]);
      ConstMeta(target, x);
      var meta := ws[0];
      var size, bf, off, len := meta % 256, meta / 256 % 256, meta / 0x1_0000 % 256, meta / 0x100_0000 % 256;
      var stride := meta / 0x1_0000_0000;
      var val := Wrap(ws[1] + stride * pid);
      assert val == ForProcess(x.value, x.pidStride, pid);
      if !register { return Stores(size, bf, off, len), [val]; }
      var v;
      ok, v := InRegister(size, bf, off, len, val);
      return ok, [v];
    }

    method ResultArg(register: bool, ghost x: Arg) returns (ok: bool, vals: seq<uint64>)
      requires Ready() && ValidArg(x) && x.Result? && At(data, pos, Words(target.codec, ArgWords(target, x)[1..]))
      modifies this`pos
      ensures Ready() && (ok <==> Accepts(x, register)) && (ok ==> vals == Yields(results[..], pid, register, x))
      ensures pos == old(pos) + |Words(target.codec, ArgWords(target, x)[1..])|
    {
      var ws := Expect(5, ArgWords(target, x)[1..]);
      ResultMeta(target, x);
      var size, bf := ws[0] % 256, ws[0] / 256;
      if register && bf != 0 { return false, []; }
      var v := ReadResult(ws[1], ws[2], ws[3], ws[4]);
      if v.None? || (!register && !Stores(size, bf, 0, 0)) { return false, []; }
      return true, [v.value];
    }

    method DataArg(ghost x: Arg) returns (ok: bool)
      requires Ready() && ValidArg(x) && x.Data? && At(data, pos, Words(target.codec, ArgWords(target, x)[1..]))
      requires At(data, pos + |Words(target.codec, ArgWords(target, x)[1..])|, x.data)
      modifies this`pos
      ensures Ready() && ok && pos == old(pos) + |Words(target.codec, ArgWords(target, x)[1..])| + |x.data|
    {
      var ws := Expect(1, ArgWords(target, x)[1..]);
      var size := ws[0] % READABLE;
      assert size == |x.data|;
      pos := pos + size;
      return true;
    }

    method CsumArg(ghost x: Arg) returns (ok: bool)
      requires Ready() && ValidArg(x) && x.Csum? && At(data, pos, Words(target.codec, ArgWords(target, x)[1..]))
      requires At(data, pos + |Words(target.codec, ArgWords(target, x)[1..])|, ArgTail(target, x))
      modifies this`pos
      ensures Ready() && (ok <==> Accepts(x, false))
      ensures ok ==> pos == old(pos) + |Words(target.codec, ArgWords(target, x)[1..])| + |ArgTail(target, x)|
    {
      var ws := Expect(3, ArgWords(target, x)[1..]);
      if ws[1] != CSUM_INET { assert false; }
      if ws[0] != 2 { return false; }
      WrapSmall(|x.chunks|);
      ok := Chunks(ws[2], x.chunks);
    }

    /** The register arguments of a call. */
    method CallArgs(n: nat, ghost args: seq<Arg>) returns (ok: bool, vals: seq<uint64>)
      requires Ready() && |args| == n && At(data, pos, Many(ArgEncoder(target), args))
      requires forall i :: 0 <= i < |args| ==> ValidArg(args[i])
      modifies this`pos
      ensures Ready() && (ok <==> forall i :: 0 <= i < |args| ==> Accepts(args[i], true))
      ensures ok ==> pos == old(pos) + |Many(ArgEncoder(target), args)| && vals == AllYields(results[..], pid, args)
    {
      ghost var end := pos + |Many(ArgEncoder(target), args)|;
      vals := [];
      var i := 0;
      ArgsStart(target, data, pos, args);
      assert args[..0] == [];
      while i < n
        invariant 0 <= i <= n && Ready() && (forall j :: 0 <= j < i ==> Accepts(args[j], true))
        invariant ArgsAt(target, data, pos, args, i, end)
        invariant vals == AllYields(results[..], pid, args[..i])
      {
        var one;
        ok, one := NextArg(args, i, end);
        if !ok { return; }
        vals := vals + one;
        i := i + 1;
      }
      ArgsEnd(target, data, pos, args, end);
      assert args[..i] == args;
      return true, vals;
    }

    method NextArg(ghost args: seq<Arg>, ghost i: nat, ghost end: nat) returns (ok: bool, one: seq<uint64>)
      requires Ready() && i < |args| && ArgsAt(target, data, pos, args, i, end) && ValidArg(args[i])
      modifies this`pos
      ensures Ready() && (ok <==> Accepts(args[i], true))
      ensures ok ==> ArgsAt(target, data, pos, args, i + 1, end)
      ensures ok ==> AllYields(results[..], pid, args[..i + 1]) == AllYields(results[..], pid, args[..i]) + one
    {
      ArgsNext(target, data, pos, args, i, end);
      ok, one := ReadArg(true, args[i]);
      YieldsNext(results[..], pid, args, i);
    }

    /** A call: number and result index are followed by the arguments; then it is scheduled. */
    method ReadCall(ghost x: Instr<Arg>) returns (ok: bool, vals: seq<uint64>)
      requires Ready() && ValidInstr(target, x) && x.Call?
               && At(data, pos, Words(target.codec, InstrWords(target, x)[1..]))
      requires At(data, pos + |Words(target.codec, InstrWords(target, x)[1..])|, InstrTail(target, x))
      modifies this`pos, this`threads
      ensures Ready() && (ok <==> AcceptsInstr(x))
      ensures ok ==> pos == old(pos) + |Words(target.codec, InstrWords(target, x)[1..])| + |InstrTail(target, x)|
      ensures ok ==> vals == AllYields(results[..], pid, x.args)
      ensures threads == if ok then old(threads) + [Thread(x.index, pos)] else old(threads)
    {
      var ws := Expect(2, InstrWords(target, x)[1..]);
      var index, n := ws[0], ws[1];
      WrapSmall(|x.args|);
      if n > MAX_ARGS { return false, []; }
      ok, vals := CallArgs(n, x.args);
      if ok { threads := threads + [Thread(index, pos)]; }
    }

    /** An address and the argument to store there. */
    method ReadCopyin(ghost x: Instr<Arg>) returns (ok: bool, vals: seq<uint64>)
      requires Ready() && ValidInstr(target, x) && x.Copyin?
               && At(data, pos, Words(target.codec, InstrWords(target, x)[1..]))
      requires At(data, pos + |Words(target.codec, InstrWords(target, x)[1..])|, InstrTail(target, x))
      modifies this`pos
      ensures Ready() && (ok <==> AcceptsInstr(x))
      ensures ok ==> pos == old(pos) + |Words(target.codec, InstrWords(target, x)[1..])| + |InstrTail(target, x)|
      ensures ok ==> vals == InstrYields(results[..], pid, x)
    {
      var addr := Address(InstrWords(target, x)[1..], x.addr);
      ok, vals := ReadArg(false, x.arg);
      vals := [addr] + vals;
    }

    /** One turn of the loop of execute_one; completions are separate. */
    method Step(ghost x: Instr<Arg>) returns (o: Outcome, vals: seq<uint64>)
      requires Ready() && target.Valid() && ValidInstr(target, x) && At(data, pos, EncodeInstr(target, x))
      modifies this`pos, this`threads
      ensures Ready() && (o == Failed <==> !AcceptsInstr(x)) && (o == Finished <==> x.Eof?)
      ensures o != Failed ==> pos == old(pos) + |EncodeInstr(target, x)| && vals == InstrYields(results[..], pid, x)
      ensures threads == if o != Failed && x.Call? then old(threads) + [Thread(x.index, pos)] else old(threads)
    {
      ghost var ws := InstrWords(target, x);
      AtSplit(data, pos, Words(target.codec, ws), InstrTail(target, x));
      FirstWord(target.codec, data, pos, ws);
      var head := Expect(1, [ws[0]]);
      var op := head[0];
      var ok;
      if op == INSTR_EOF {
        return Finished, [];
      } else if op == INSTR_COPYIN {
        ok, vals := ReadCopyin(x);
        return if ok then More else Failed, vals;
      } else if op == INSTR_COPYOUT || op == INSTR_SETPROPS || op == INSTR_CONFIG {
        var skipped := Expect(3, ws[1..]);
        return More, [];
      }
      if op >= target.syscalls { assert false; }
      ok, vals := ReadCall(x);
      return if ok then More else Failed, vals;
    }

    // ----- a serialized program -----

    /** n instructions of the program are read, and the calls among them are scheduled. */
    ghost predicate Tracks(calls: seq<ExecCall<Arg>>, acts: seq<Action>, n: nat)
      reads this
    {
      && Ready() && target.Valid() && Holds(target, data, calls, acts)
      && Placed(target, calls, acts, n, pos) && Scheduled(target, calls, acts, n, threads)
    }

    /** The number of calls in front of the program is read and not used. */
    method Header(ghost calls: seq<ExecCall<Arg>>, ghost acts: seq<Action>)
      requires Ready() && target.Valid() && pos == 0 && threads == [] && Holds(target, data, calls, acts)
      modifies this`pos
      ensures Tracks(calls, acts, 0)
    {
      HeaderAt(target, data, calls, acts);
      var n := Expect(1, [Wrap(|calls|)]);
      assert Layout(calls, acts, 0)[..0] == [];
    }

    /** The next instruction of the program: where execute_one stands and which values it reads. */
    method Next(ghost calls: seq<ExecCall<Arg>>, ghost acts: seq<Action>, ghost n: nat)
      returns (o: Outcome, vals: seq<uint64>)
      requires Tracks(calls, acts, n) && n < |Layout(calls, acts, 0)|
      modifies this`pos, this`threads
      ensures var x := Layout(calls, acts, 0)[n];
              && (o == Failed <==> !AcceptsInstr(x)) && (o == Finished <==> x.Eof?)
              && (o != Failed ==> Tracks(calls, acts, n + 1) && vals == InstrYields(results[..], pid, x))
    {
      ghost var x, p, ts := Layout(calls, acts, 0)[n], pos, threads;
      NextAt(target, data, calls, acts, n, pos);
      o, vals := Step(x);
      if o != Failed {
        PlacedNext(target, calls, acts, n, p, pos);
        ScheduledNext(target, calls, acts, n, pos, ts, threads);
      }
    }

    /** handle_completion of call k, whenever it happens: a call that returned -1 leaves no results. */
    method Complete(k: nat, res: uint64, mem: Memory, ghost calls: seq<ExecCall<Arg>>, ghost acts: seq<Action>,
                    ghost n: nat)
      returns (ok: bool)
      requires Tracks(calls, acts, n) && k < |threads|
      requires forall c :: c in calls[k].copyout ==> c.index < MAX_COMMANDS
      modifies results
      ensures Tracks(calls, acts, n)
      ensures match Completed(old(results[..]), calls[k], res, mem)
              case None => !ok
              case Some(s) => ok && results[..] == s
    {
      if res == CALL_FAILED { return true; }
      CompletionAt(target, data, calls, acts, n, threads, k, res, results[..], mem);
      ok := CopyoutCallResults(target, data, threads[k].copyoutPos, threads[k].index, res, results, mem);
    }
  }

  lemma {:induction false} ConstMeta(t: Target, x: Arg)
    requires ValidArg(x) && x.Const?
    ensures |ArgWords(t, x)[1..]| == 2 && ArgWords(t, x)[1..][1] == x.value
    ensures var m := ArgWords(t, x)[1..][0];
            && m % 256 == x.size && m / 256 % 256 == x.format && m / 0x1_0000 % 256 == x.bfOff
            && m / 0x100_0000 % 256 == x.bfLen && m / 0x1_0000_0000 == x.pidStride
  {
    PackWraps(x.size, x.format, x.bfOff, x.bfLen, x.pidStride, x.value);
    PackUnpack(x.size, x.format, x.bfOff, x.bfLen, x.pidStride, x.value);
  }

  lemma {:induction false} ResultMeta(t: Target, x: Arg)
    requires ValidArg(x) && x.Result?
    ensures ArgWords(t, x)[1..][0] % 256 == x.size && ArgWords(t, x)[1..][0] / 256 == x.format
  {
    PackWraps(x.size, x.format, 0, 0, 0, 0);
    PackSum(x.size, x.format, 0, 0, 0);
  }

  /** The arguments from i on stand between pos and end. */
  predicate ArgsAt(t: Target, data: seq<byte>, pos: nat, args: seq<Arg>, i: nat, end: nat) {
    i <= |args| && At(data, pos, Many(ArgEncoder(t), args[i..])) && pos + |Many(ArgEncoder(t), args[i..])| == end
  }

  lemma {:induction false} ArgsStart(t: Target, data: seq<byte>, pos: nat, args: seq<Arg>)
    requires At(data, pos, Many(ArgEncoder(t), args))
    ensures ArgsAt(t, data, pos, args, 0, pos + |Many(ArgEncoder(t), args)|)
  {
    assert args[0..] == args;
  }

  lemma {:induction false} ArgsEnd(t: Target, data: seq<byte>, pos: nat, args: seq<Arg>, end: nat)
    requires ArgsAt(t, data, pos, args, |args|, end)
    ensures pos == end
  {
    assert args[|args|..] == [];
  }

  lemma {:induction false} ArgsNext(t: Target, data: seq<byte>, pos: nat, args: seq<Arg>, i: nat, end: nat)
    requires i < |args| && ArgsAt(t, data, pos, args, i, end)
    ensures At(data, pos, EncodeArg(t, args[i])) && ArgsAt(t, data, pos + |EncodeArg(t, args[i])|, args, i + 1, end)
  {
    assert args[i..][0] == args[i] && args[i..][1..] == args[i + 1..];
    AtSplit(data, pos, EncodeArg(t, args[i]), Many(ArgEncoder(t), args[i + 1..]));
  }

  lemma {:induction false} YieldsNext(slots: seq<Slot>, pid: uint64, args: seq<Arg>, i: nat)
    requires i < |args|
    ensures AllYields(slots, pid, args[..i + 1]) == AllYields(slots, pid, args[..i]) + Yields(slots, pid, true, args[i])
  {
    assert args[..i + 1][..i] == args[..i];
  }

  lemma {:induction false} YieldsOne(slots: seq<Slot>, pid: uint64, a: Arg)
    ensures AllYields(slots, pid, [a]) == Yields(slots, pid, true, a)
  {
    assert [a][..0] == [];
    assert AllYields(slots, pid, [a]) == AllYields(slots, pid, [a][..0]) + Yields(slots, pid, true, a);
  }

  lemma {:induction false} OffsetBack(addr: uint64, base: uint64)
    ensures Wrap(Wrap(addr - base) + base) == addr
  {
  }

  lemma {:induction false} YieldsCons(slots: seq<Slot>, pid: uint64, a: Arg, args: seq<Arg>)
    ensures AllYields(slots, pid, [a] + args) == Yields(slots, pid, true, a) + AllYields(slots, pid, args)
  {
    if |args| == 0 {
      assert [a] + args == [a];
      YieldsOne(slots, pid, a);
    } else {
      var n := |args| - 1;
      YieldsCons(slots, pid, a, args[..n]);
      assert ([a] + args)[..n + 1] == [a] + args[..n];
    }
  }

  // ----- where instructions and calls stand -----

  /** The data starts with the program. */
  ghost predicate Holds(t: Target, data: seq<byte>, calls: seq<ExecCall<Arg>>, acts: seq<Action>) {
    At(data, 0, Serialize(t, calls, acts)) && forall j :: 0 <= j < |calls| ==> ValidCall(t, calls[j])
  }

  /** The position behind n instructions. */
  predicate Placed(t: Target, calls: seq<ExecCall<Arg>>, acts: seq<Action>, n: nat, pos: nat) {
    var xs := Layout(calls, acts, 0);
    n <= |xs| && pos == |t.codec.enc(Wrap(|calls|))| + |Bytes(t, xs[..n])|
  }

  /** What schedule_call is to keep of call k: its result index and the place of its own copyouts. */
  function ThreadOf(t: Target, calls: seq<ExecCall<Arg>>, acts: seq<Action>): nat -> Thread {
    (k: nat) => if k < |calls| then Thread(calls[k].index, CopyoutPos(t, calls, acts, k)) else Thread(NO_COPYOUT, 0)
  }

  function FirstOf<T>(f: nat -> T, m: nat): (r: seq<T>)
    ensures |r| == m
  {
    if m == 0 then [] else FirstOf(f, m - 1) + [f(m - 1)]
  }

  lemma {:induction false} FirstOfNext<T>(f: nat -> T, m: nat, ts: seq<T>, x: T)
    requires ts == FirstOf(f, m) && x == f(m)
    ensures ts + [x] == FirstOf(f, m + 1)
  {
  }

  lemma {:induction false} FirstOfAt<T>(f: nat -> T, m: nat, k: nat)
    requires k < m
    ensures FirstOf(f, m)[k] == f(k)
  {
    if k < m - 1 { FirstOfAt(f, m - 1, k); }
  }

  /** The calls among n instructions are scheduled. */
  predicate Scheduled(t: Target, calls: seq<ExecCall<Arg>>, acts: seq<Action>, n: nat, threads: seq<Thread>) {
    && n <= |Layout(calls, acts, 0)|
    && var m := CountCalls(Layout(calls, acts, 0)[..n]); m <= |calls| && threads == FirstOf(ThreadOf(t, calls, acts), m)
  }

  lemma {:induction false} PlacedNext(t: Target, calls: seq<ExecCall<Arg>>, acts: seq<Action>, n: nat, p: nat, q: nat)
    requires n < |Layout(calls, acts, 0)| && Placed(t, calls, acts, n, p)
    requires q == p + |EncodeInstr(t, Layout(calls, acts, 0)[n])|
    ensures Placed(t, calls, acts, n + 1, q)
  {
    ManyNext(InstrEncoder(t), Layout(calls, acts, 0), n);
  }

  lemma {:induction false} ScheduledNext(t: Target, calls: seq<ExecCall<Arg>>, acts: seq<Action>, n: nat, q: nat,
                                         ts: seq<Thread>, us: seq<Thread>)
    requires n < |Layout(calls, acts, 0)| && Scheduled(t, calls, acts, n, ts) && Placed(t, calls, acts, n + 1, q)
    requires var x := Layout(calls, acts, 0)[n]; us == if x.Call? then ts + [Thread(x.index, q)] else ts
    ensures Scheduled(t, calls, acts, n + 1, us)
  {
    CountNext(Layout(calls, acts, 0), n);
    if Layout(calls, acts, 0)[n].Call? {
      CountBound(calls, acts, n + 1);
      CallPlace(t, calls, acts, n, CountCalls(Layout(calls, acts, 0)[..n]), q);
      FirstOfNext(ThreadOf(t, calls, acts), CountCalls(Layout(calls, acts, 0)[..n]), ts,
          Thread(Layout(calls, acts, 0)[n].index, q));
    }
  }

  function CountCalls(xs: seq<Instr<Arg>>): nat {
    if |xs| == 0 then 0 else CountCalls(xs[..|xs| - 1]) + if xs[|xs| - 1].Call? then 1 else 0
  }

  lemma {:induction false} CountNext(xs: seq<Instr<Arg>>, n: nat)
    requires n < |xs|
    ensures CountCalls(xs[..n + 1]) == CountCalls(xs[..n]) + if xs[n].Call? then 1 else 0
  {
    assert xs[..n + 1][..n] == xs[..n];
  }

  lemma {:induction false} CountConcat(a: seq<Instr<Arg>>, b: seq<Instr<Arg>>)
    ensures CountCalls(a + b) == CountCalls(a) + CountCalls(b)
  {
    if |b| == 0 {
      assert a + b == a;
    } else {
      assert (a + b)[..|a + b| - 1] == a + b[..|b| - 1];
      CountConcat(a, b[..|b| - 1]);
    }
  }

  lemma {:induction false} CountNone(xs: seq<Instr<Arg>>)
    requires forall i :: 0 <= i < |xs| ==> !xs[i].Call?
    ensures CountCalls(xs) == 0
  {
    if |xs| > 0 { CountNone(xs[..|xs| - 1]); }
  }

  lemma {:induction false} CountMono(xs: seq<Instr<Arg>>, i: nat, j: nat)
    requires i <= j <= |xs|
    ensures CountCalls(xs[..i]) <= CountCalls(xs[..j])
  {
    assert xs[..j] == xs[..i] + xs[i..j];
    CountConcat(xs[..i], xs[i..j]);
  }

  lemma {:induction false} CountCall(c: ExecCall<Arg>)
    ensures CountCalls(CopyinInstrs(c.copyin) + PropsInstrs(c.props)) == 0 && CountCalls(CopyoutInstrs(c.copyout)) == 0
    ensures CountCalls(CallInstrs(c)) == 1
  {
    var a, x, b := CopyinInstrs(c.copyin) + PropsInstrs(c.props), Call(c.id, c.index, c.args), CopyoutInstrs(c.copyout);
    CountNone(a);
    CountNone(b);
    CountConcat(a, [x]);
    CountConcat(a + [x], b);
    CountOne(x);
  }

  lemma {:induction false} CountOne(x: Instr<Arg>)
    ensures CountCalls([x]) == if x.Call? then 1 else 0
  {
    assert [x][..0] == [];
    assert CountCalls([x]) == CountCalls([x][..0]) + if x.Call? then 1 else 0;
  }

  lemma {:induction false} CountConfigured(c: ExecCall<Arg>, acts: seq<Action>)
    ensures CountCalls(ConfigInstrs(acts) + CallInstrs(c)) == 1
  {
    CountCall(c);
    CountNone(ConfigInstrs(acts));
    CountConcat(ConfigInstrs(acts), CallInstrs(c));
  }

  lemma {:induction false} CountLaid(calls: seq<ExecCall<Arg>>, acts: seq<Action>)
    ensures CountCalls(Laid(calls, acts)) == |calls|
  {
    if |calls| == 0 {
      assert Laid(calls, acts) == [];
    } else {
      var n := |calls| - 1;
      CountLaid(calls[..n], acts);
      CountConfigured(calls[n], ActionsAt(acts, n));
      CountConcat(Laid(calls[..n], acts), ConfigInstrs(ActionsAt(acts, n)) + CallInstrs(calls[n]));
    }
  }

  /** The stream in front of call k, without and with the call instruction. */
  lemma {:induction false} CountUpTo(calls: seq<ExecCall<Arg>>, acts: seq<Action>, k: nat)
    requires k < |calls|
    ensures var u := UpToArgs(calls, acts, k); var c := calls[k];
            && |u| > 0 && u[|u| - 1] == Call(c.id, c.index, c.args)
            && CountCalls(u) == k + 1 && CountCalls(u[..|u| - 1]) == k
  {
    var c := calls[k];
    var a, b := Laid(calls[..k], acts) + ConfigInstrs(ActionsAt(acts, k)),
        CopyinInstrs(c.copyin) + PropsInstrs(c.props);
    var x := Call(c.id, c.index, c.args);
    CountLaid(calls[..k], acts);
    CountNone(ConfigInstrs(ActionsAt(acts, k)));
    CountConcat(Laid(calls[..k], acts), ConfigInstrs(ActionsAt(acts, k)));
    CountCall(c);
    CountConcat(a, b);
    CountOne(x);
    CountConcat(a + b, [x]);
    assert UpToArgs(calls, acts, k) == a + (b + [x]) == (a + b) + [x];
    assert ((a + b) + [x])[..|a + b|] == a + b;
  }

  lemma {:induction false} CountAll(calls: seq<ExecCall<Arg>>, acts: seq<Action>)
    ensures CountCalls(Layout(calls, acts, 0)) == |calls|
  {
    var n := |calls|;
    LaidIsLayout(calls, acts, n);
    assert calls[..n] == calls;
    var tail := ConfigInstrs(ActionsAt(acts, n)) + [Eof];
    assert Layout(calls, acts, n) == tail;
    CountLaid(calls, acts);
    CountNone(tail);
    CountConcat(Laid(calls, acts), tail);
  }

  lemma {:induction false} CountBound(calls: seq<ExecCall<Arg>>, acts: seq<Action>, n: nat)
    requires n <= |Layout(calls, acts, 0)|
    ensures CountCalls(Layout(calls, acts, 0)[..n]) <= |calls|
  {
    var xs := Layout(calls, acts, 0);
    CountAll(calls, acts);
    CountMono(xs, n, |xs|);
    assert xs[..|xs|] == xs;
  }

  /** Two ends of a stream behind a call, with equally many calls before it, are the same. */
  lemma {:induction false} SameEnd(xs: seq<Instr<Arg>>, m: nat, n: nat)
    requires m < |xs| && n < |xs| && xs[m].Call? && xs[n].Call? && CountCalls(xs[..m]) == CountCalls(xs[..n])
    ensures m == n
  {
    CountNext(xs, m);
    CountNext(xs, n);
    if m < n { CountMono(xs, m + 1, n); }
    if n < m { CountMono(xs, n + 1, m); }
  }

  /** The call instruction with k calls before it is that of call k, and the stream up to it is known. */
  lemma {:induction false} CallPlace(t: Target, calls: seq<ExecCall<Arg>>, acts: seq<Action>, n: nat, k: nat, q: nat)
    requires n < |Layout(calls, acts, 0)| && Layout(calls, acts, 0)[n].Call? && Placed(t, calls, acts, n + 1, q)
    requires k == CountCalls(Layout(calls, acts, 0)[..n]) < |calls|
    ensures Thread(Layout(calls, acts, 0)[n].index, q) == ThreadOf(t, calls, acts)(k)
  {
    var m := CallEnd(calls, acts, k);
    SameEnd(Layout(calls, acts, 0), m, n);
    PlaceIs(t, calls, acts, n, k, q);
  }

  lemma {:induction false} CallAt(calls: seq<ExecCall<Arg>>, acts: seq<Action>, n: nat)
    requires n < |Layout(calls, acts, 0)| && Layout(calls, acts, 0)[n].Call?
    ensures var k := CountCalls(Layout(calls, acts, 0)[..n]);
            k < |calls| && Layout(calls, acts, 0)[n] == Call(calls[k].id, calls[k].index, calls[k].args)
  {
    CountNext(Layout(calls, acts, 0), n);
    CountBound(calls, acts, n + 1);
    var m := CallEnd(calls, acts, CountCalls(Layout(calls, acts, 0)[..n]));
    SameEnd(Layout(calls, acts, 0), m, n);
  }

  lemma {:induction false} LaidEnds(calls: seq<ExecCall<Arg>>, acts: seq<Action>, k: nat)
    requires k < |calls|
    ensures Laid(calls[..k + 1], acts) == UpToArgs(calls, acts, k) + CopyoutInstrs(calls[k].copyout)
  {
    var c := calls[k];
    assert calls[..k + 1][..k] == calls[..k] && calls[..k + 1][k] == c;
    var a, b := Laid(calls[..k], acts), ConfigInstrs(ActionsAt(acts, k));
    var d, e := CopyinInstrs(c.copyin) + PropsInstrs(c.props) + [Call(c.id, c.index, c.args)], CopyoutInstrs(c.copyout);
    Regroup(a, b, d, e, []);
    assert d + e + [] == d + e && e + [] == e;
  }

  /** A copyin with k calls before it stands behind everything that belongs to them. */
  lemma {:induction false} BehindCalls(calls: seq<ExecCall<Arg>>, acts: seq<Action>, n: nat, k: nat)
    requires n < |Layout(calls, acts, 0)| && Layout(calls, acts, 0)[n].Copyin?
    requires k == CountCalls(Layout(calls, acts, 0)[..n]) && k <= |calls|
    ensures n >= |Laid(calls[..k], acts)|
  {
    if k > 0 {
      var m := CallEnd(calls, acts, k - 1);
      AfterCall(Layout(calls, acts, 0), m, n);
      LaidEnds(calls, acts, k - 1);
      StreamSplits(calls, acts, k - 1);
      NotAmong(Layout(calls, acts, 0), UpToArgs(calls, acts, k - 1), CopyoutInstrs(calls[k - 1].copyout),
               Layout(calls, acts, k), n);
    }
  }

  lemma {:induction false} AfterCall(xs: seq<Instr<Arg>>, m: nat, n: nat)
    requires m < |xs| && n < |xs| && CountCalls(xs[..m]) < CountCalls(xs[..n])
    ensures m < n
  {
    if n <= m { CountMono(xs, n, m); }
  }

  lemma {:induction false} NotAfter(xs: seq<Instr<Arg>>, m: nat, n: nat)
    requires m < |xs| && n < |xs| && CountCalls(xs[..n]) < CountCalls(xs[..m + 1])
    ensures n <= m
  {
    if m < n { CountMono(xs, m + 1, n); }
  }

  lemma {:induction false} NotAmong(xs: seq<Instr<Arg>>, u: seq<Instr<Arg>>, e: seq<Instr<Arg>>, f: seq<Instr<Arg>>,
                                    n: nat)
    requires xs == u + (e + f) && |u| <= n < |xs| && xs[n].Copyin? && forall i :: 0 <= i < |e| ==> !e[i].Copyin?
    ensures n >= |u + e|
  {
    assert forall i :: 0 <= i < |e| ==> (u + (e + f))[|u| + i] == e[i];
  }

  /** Behind the last call there is no copyin. */
  lemma {:induction false} CallFollows(calls: seq<ExecCall<Arg>>, acts: seq<Action>, n: nat, k: nat)
    requires n < |Layout(calls, acts, 0)| && Layout(calls, acts, 0)[n].Copyin?
    requires k <= |calls| && n >= |Laid(calls[..k], acts)|
    ensures k < |calls|
  {
    if k == |calls| {
      LaidIsLayout(calls, acts, k);
      assert false;
    }
  }

  /** A copyin with k calls before it is one of call k. */
  lemma {:induction false} CopyinAt(calls: seq<ExecCall<Arg>>, acts: seq<Action>, n: nat) returns (j: nat)
    requires n < |Layout(calls, acts, 0)| && Layout(calls, acts, 0)[n].Copyin?
    ensures var k := CountCalls(Layout(calls, acts, 0)[..n]); var x := Layout(calls, acts, 0)[n];
            k < |calls| && j < |calls[k].copyin| && ExecCopyin(x.addr, x.arg) == calls[k].copyin[j]
  {
    var k := CountCalls(Layout(calls, acts, 0)[..n]);
    CountBound(calls, acts, n);
    BehindCalls(calls, acts, n, k);
    CallFollows(calls, acts, n, k);
    var m := CallEnd(calls, acts, k);
    CountNext(Layout(calls, acts, 0), m);
    NotAfter(Layout(calls, acts, 0), m, n);
    TakeAt(Layout(calls, acts, 0), UpToArgs(calls, acts, k), n);
    j := CopyinAmong(Laid(calls[..k], acts), ConfigInstrs(ActionsAt(acts, k)), calls[k], n);
  }

  lemma {:induction false} TakeAt<T>(xs: seq<T>, u: seq<T>, n: nat)
    requires n < |u| <= |xs| && xs[..|u|] == u
    ensures xs[n] == u[n]
  {
    assert xs[n] == xs[..|u|][n];
  }

  lemma {:induction false} CopyinAmong(a: seq<Instr<Arg>>, b: seq<Instr<Arg>>, c: ExecCall<Arg>, n: nat)
    returns (j: nat)
    requires forall i :: 0 <= i < |b| ==> b[i].Config?
    requires var u := a + b + (CopyinInstrs(c.copyin) + PropsInstrs(c.props) + [Call(c.id, c.index, c.args)]);
             |a| <= n < |u| && u[n].Copyin?
    ensures var u := a + b + (CopyinInstrs(c.copyin) + PropsInstrs(c.props) + [Call(c.id, c.index, c.args)]);
            j < |c.copyin| && ExecCopyin(u[n].addr, u[n].arg) == c.copyin[j]
  {
    var p, q, x := CopyinInstrs(c.copyin), PropsInstrs(c.props), Call(c.id, c.index, c.args);
    var u := a + b + (p + q + [x]);
    assert u == a + (b + (p + q + [x]));
    NotAmong(u, a, b, p + q + [x], n);
    j := n - |a| - |b|;
    assert u[n] == (p + q + [x])[j];
    assert forall i :: |p| <= i < |p + q + [x]| ==> !(p + q + [x])[i].Copyin?;
  }

  lemma {:induction false} PlaceIs(t: Target, calls: seq<ExecCall<Arg>>, acts: seq<Action>, n: nat, k: nat, q: nat)
    requires Placed(t, calls, acts, n + 1, q) && k < |calls|
    requires Layout(calls, acts, 0)[..n + 1] == UpToArgs(calls, acts, k)
    ensures CopyoutPos(t, calls, acts, k) == q
  {
  }

  /** Where the instruction of call k stands. */
  lemma {:induction false} CallEnd(calls: seq<ExecCall<Arg>>, acts: seq<Action>, k: nat) returns (m: nat)
    requires k < |calls|
    ensures var xs := Layout(calls, acts, 0);
            && m < |xs| && xs[m] == Call(calls[k].id, calls[k].index, calls[k].args) && CountCalls(xs[..m]) == k
            && xs[..m + 1] == UpToArgs(calls, acts, k)
  {
    m := |UpToArgs(calls, acts, k)| - 1;
    CountUpTo(calls, acts, k);
    StreamSplits(calls, acts, k);
    EndAt(Layout(calls, acts, 0), UpToArgs(calls, acts, k),
        CopyoutInstrs(calls[k].copyout) + Layout(calls, acts, k + 1), k,
          Call(calls[k].id, calls[k].index, calls[k].args));
  }

  lemma {:induction false} EndAt(xs: seq<Instr<Arg>>, u: seq<Instr<Arg>>, v: seq<Instr<Arg>>, k: nat, x: Instr<Arg>)
    requires xs == u + v && |u| > 0 && u[|u| - 1] == x && CountCalls(u[..|u| - 1]) == k
    ensures var m: nat := |u| - 1; m < |xs| && xs[m] == x && CountCalls(xs[..m]) == k && xs[..m + 1] == u
  {
    PrefixOf(u, v);
  }

  lemma {:induction false} PrefixOf<T>(u: seq<T>, v: seq<T>)
    requires |u| > 0
    ensures (u + v)[..|u|] == u && (u + v)[..|u| - 1] == u[..|u| - 1] && (u + v)[|u| - 1] == u[|u| - 1]
  {
  }

  lemma {:induction false} HeaderAt(t: Target, data: seq<byte>, calls: seq<ExecCall<Arg>>, acts: seq<Action>)
    requires At(data, 0, Serialize(t, calls, acts))
    ensures At(data, 0, Words(t.codec, [Wrap(|calls|)]))
            && |Words(t.codec, [Wrap(|calls|)])| == |t.codec.enc(Wrap(|calls|))|
  {
    AtSplit(data, 0, t.codec.enc(Wrap(|calls|)), Many(InstrEncoder(t), Layout(calls, acts, 0)));
    assert Many(t.codec.enc, [Wrap(|calls|)]) == t.codec.enc(Wrap(|calls|)) + [];
  }

  lemma {:induction false} NextAt(t: Target, data: seq<byte>, calls: seq<ExecCall<Arg>>, acts: seq<Action>, n: nat,
                                  p: nat)
    requires Holds(t, data, calls, acts) && n < |Layout(calls, acts, 0)| && Placed(t, calls, acts, n, p)
    ensures var x := Layout(calls, acts, 0)[n]; ValidInstr(t, x) && At(data, p, EncodeInstr(t, x))
  {
    LayoutValid(t, calls, acts, 0);
    EncodedAt(t, data, t.codec.enc(Wrap(|calls|)), Layout(calls, acts, 0), n, p);
  }

  lemma {:induction false} EncodedAt(t: Target, data: seq<byte>, w: seq<byte>, xs: seq<Instr<Arg>>, n: nat, p: nat)
    requires At(data, 0, w + Bytes(t, xs)) && n < |xs| && p == |w| + |Bytes(t, xs[..n])|
    ensures At(data, p, EncodeInstr(t, xs[n]))
  {
    BehindAt(InstrEncoder(t), data, w, xs, n);
  }

  lemma {:induction false} BehindAt<T>(enc: T -> seq<byte>, data: seq<byte>, w: seq<byte>, xs: seq<T>, n: nat)
    requires n < |xs| && At(data, 0, w + Many(enc, xs))
    ensures At(data, |w| + |Many(enc, xs[..n])|, enc(xs[n]))
  {
    AtSplit(data, 0, w, Many(enc, xs));
    ManyAt(enc, data, |w|, xs, n);
  }

  lemma {:induction false} ManyAt<T>(enc: T -> seq<byte>, data: seq<byte>, i: nat, xs: seq<T>, n: nat)
    requires n < |xs| && At(data, i, Many(enc, xs))
    ensures At(data, i + |Many(enc, xs[..n])|, enc(xs[n]))
  {
    assert xs == xs[..n] + ([] + xs[n..]);
    MiddleAt(enc, data, i, xs[..n], [], xs[n..]);
    assert [] + [xs[n]] == [xs[n]] && Many(enc, [xs[n]]) == enc(xs[n]) + [];
  }

  lemma {:induction false} ManyNext<T>(enc: T -> seq<byte>, xs: seq<T>, n: nat)
    requires n < |xs|
    ensures |Many(enc, xs[..n + 1])| == |Many(enc, xs[..n])| + |enc(xs[n])|
  {
    assert xs[..n + 1] == xs[..n] + [xs[n]];
    ManyConcat(enc, xs[..n], [xs[n]]);
    assert Many(enc, [xs[n]]) == enc(xs[n]) + [];
  }

  // ----- completions -----

  /** The table after a call has returned res and left mem behind; nothing is recorded for a failed call. */
  function Completed(slots: seq<Slot>, c: ExecCall<Arg>, res: uint64, mem: Memory): Option<seq<Slot>>
    requires forall o :: o in c.copyout ==> o.index < |slots|
  {
    if res == CALL_FAILED then Some(slots) else
    match NoteReturn(slots, c.index, res)
    case None => None
    case Some(s) => if Sized(c.copyout) then Some(Record(s, c.copyout, mem)) else None
  }

  lemma {:induction false} CompletionAt(t: Target, data: seq<byte>, calls: seq<ExecCall<Arg>>, acts: seq<Action>,
                                        n: nat,
                                        threads: seq<Thread>, k: nat, res: uint64, slots: seq<Slot>, mem: Memory)
    requires t.Valid() && |slots| == MAX_COMMANDS && Holds(t, data, calls, acts)
    requires Scheduled(t, calls, acts, n, threads) && k < |threads| && k < |calls|
    requires forall o :: o in calls[k].copyout ==> o.index < MAX_COMMANDS
    ensures threads[k].copyoutPos <= |data|
    ensures res != CALL_FAILED ==>
            CallResults(t, data, threads[k].copyoutPos, threads[k].index, res, slots, mem) ==
            Completed(slots, calls[k], res, mem)
  {
    FirstOfAt(ThreadOf(t, calls, acts), CountCalls(Layout(calls, acts, 0)[..n]), k);
    PlaceOfCopyouts(t, data, calls, acts, k);
    CompletionRecords(t, data, calls, acts, k, res, slots, mem);
  }

  lemma {:induction false} FirstWord(c: Codec, data: seq<byte>, i: nat, ws: seq<uint64>)
    requires |ws| > 0 && At(data, i, Words(c, ws))
    ensures At(data, i, Words(c, [ws[0]])) && At(data, i + |Words(c, [ws[0]])|, Words(c, ws[1..]))
    ensures |Words(c, ws)| == |Words(c, [ws[0]])| + |Words(c, ws[1..])|
  {
    assert ws == [ws[0]] + ws[1..];
    ManyConcat(c.enc, [ws[0]], ws[1..]);
    AtSplit(data, i, Words(c, [ws[0]]), Words(c, ws[1..]));
  }

  lemma {:induction false} ChunkFirst(t: Target, data: seq<byte>, i: nat, cs: seq<Chunk>)
    requires |cs| > 0 && At(data, i, Words(t.codec, ChunksWords(t, cs)))
    ensures At(data, i, Words(t.codec, ChunkWords(t, cs[0])))
    ensures At(data, i + |Words(t.codec, ChunkWords(t, cs[0]))|, Words(t.codec, ChunksWords(t, cs[1..])))
    ensures |Words(t.codec, ChunksWords(t, cs))| ==
            |Words(t.codec, ChunkWords(t, cs[0]))| + |Words(t.codec, ChunksWords(t, cs[1..]))|
  {
    ManyConcat(t.codec.enc, ChunkWords(t, cs[0]), ChunksWords(t, cs[1..]));
    AtSplit(data, i, Words(t.codec, ChunkWords(t, cs[0])), Words(t.codec, ChunksWords(t, cs[1..])));
  }
}
