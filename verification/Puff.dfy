/**
 The executor's inflate (executor/common_zlib.h): bit buffer, canonical decoding tables and
 sparse output, proved equal to the reference decoder for every input and every output size.
 `longjmp` on missing input is a result value; the C statics of the fixed block are an object.
 */
module Puff {
  import opened Basics
  import opened Bits
  import opened Canonical
  import opened Rfc1951

  // ----- input and output state -----

  ghost predicate Buffered(bits: seq<bit>, at: nat, avail: nat, bitbuf: nat) {
    at + avail <= |bits| && bitbuf == BitsAt(bits, at, avail)
  }

  /** bits is input read bit by bit. */
  ghost predicate Framed(bits: seq<bit>, input: seq<byte>) {
    |bits| == 8 * |input| && forall i :: 0 <= i < |input| ==> BitsAt(bits, 8 * i, 8) == input[i]
  }

  lemma {:induction false} ToBitsFramed(input: seq<byte>)
    ensures Framed(ToBits(input), input)
  {
    forall i | 0 <= i < |input| ensures BitsAt(ToBits(input), 8 * i, 8) == input[i] {
      ByteBits(input, i, 8 * i);
    }
  }

  /** The bit buffer holds exactly the bits between the reading position and the next byte. */
  ghost predicate Synced(bits: seq<bit>, pos: nat, incnt: nat, bitbuf: nat, bitcnt: nat) {
    bitcnt < 8 && pos + bitcnt == 8 * incnt && Buffered(bits, pos, bitcnt, bitbuf)
  }

  /** Or-ing the next byte above the cnt buffered bits buffers cnt + 8 bits. */
  lemma {:induction false} LoadByte(bits: seq<bit>, input: seq<byte>, p: nat, cnt: nat, i: nat)
    requires Framed(bits, input) && i < |input| && p + cnt == 8 * i
    ensures BitOr(BitsAt(bits, p, cnt), Shl(input[i], cnt)) == BitsAt(bits, p, cnt + 8)
  {
    BitsJoin(bits, p, cnt, 8);
  }

  class PuffState {
    const input: seq<byte>
    ghost const bits: seq<bit>
    const out: array<byte>
    var outcnt: nat
    var incnt: nat
    var bitbuf: nat
    var bitcnt: nat
    ghost var pos: nat  // reading position in bits

    constructor (input: seq<byte>, out: array<byte>)
      requires forall i :: 0 <= i < out.Length ==> out[i] == 0
      ensures this.input == input && this.out == out && bits == ToBits(input)
      ensures InputValid() && OutputValid() && pos == 0 && Written() == []
    {
      this.input, this.out := input, out;
      bits := ToBits(input);
      ToBitsFramed(input);
      outcnt, incnt, bitbuf, bitcnt, pos := 0, 0, 0, 0, 0;
    }

    ghost predicate InputValid()
      reads this`incnt, this`bitbuf, this`bitcnt, this`pos
    {
      Framed(bits, input) && incnt <= |input| && Synced(bits, pos, incnt, bitbuf, bitcnt)
    }

    /** Everything behind the write position is still zero, so zero bytes need no store. */
    ghost predicate OutputValid()
      reads this`outcnt, out
    {
      outcnt <= out.Length && forall i :: outcnt <= i < out.Length ==> out[i] == 0
    }

    ghost function Written(): seq<byte>
      reads this`outcnt, out
      requires OutputValid()
    {
      out[..outcnt]
    }

    /** The state and the return code say what the reference outcome says. */
    ghost predicate Agrees(err: int, r: Outcome)
      reads this, out
    {
      && OutputValid() && Written() == r.out && incnt <= |input|
      && match r
         case Done(p, _) => err == 0 && InputValid() && pos == p
         case Fail(e, _) => err == e
    }

    ghost predicate HeaderAgrees(err: int, lencode: Huffman, distcode: Huffman, h: Header)
      reads this`incnt, this`bitbuf, this`bitcnt, this`pos
      reads lencode.count, lencode.symbol, distcode.count, distcode.symbol
    {
      match h
      case BadHeader(e) => err == e
      case Header(lit, dist, next) =>
        err == 0 && InputValid() && pos == next && lencode.Represents(lit) && distcode.Represents(dist)
    }

    /** Writes one byte unless it is zero. */
    method Put(b: byte)
      requires OutputValid() && outcnt < out.Length
      modifies this`outcnt, out
      ensures OutputValid() && Written() == old(Written()) + [b]
    {
      if b != 0 { out[outcnt] := b; }
      outcnt := outcnt + 1;
    }

    /** puff_bits */
    method TakeBits(need: nat) returns (r: Option<nat>)
      requires InputValid() && need <= 13
      modifies this`incnt, this`bitbuf, this`bitcnt, this`pos
      ensures incnt <= |input|
      ensures r.None? <==> old(pos) + need > |bits|
      ensures r.Some? ==>
                && InputValid()
                && pos == old(pos) + need
                && r.value == BitsAt(bits, old(pos), need)
    {
      ghost var p := pos;
      pos := pos + need;
      var val: nat := bitbuf;
      while bitcnt < need
        invariant incnt <= |input|
        invariant 8 * incnt == p + bitcnt && pos == p + need
        invariant bitcnt < need + 8
        invariant Buffered(bits, p, bitcnt, val)
      {
        if incnt == |input| { return None; }
        LoadByte(bits, input, p, bitcnt, incnt);
        val := BitOr(val, Shl(input[incnt], bitcnt));
        incnt := incnt + 1;
        bitcnt := bitcnt + 8;
      }
      BitsShift(bits, p, need, bitcnt);
      bitbuf := Shr(val, need);
      bitcnt := bitcnt - need;
      return Some(Low(val, need));
    }

    /** End of puff_decode: len bits were used, `(bitcnt - len) & 7` bits of the last byte were not. */
    method KeepRest(rest: nat, len: nat, ghost incnt0: nat, ghost at: nat, ghost avail: nat)
      requires Framed(bits, input) && incnt <= |input|
      requires pos + bitcnt == 8 * incnt0 && at == pos + len && at + avail == 8 * incnt && avail < 8
      requires Buffered(bits, at, avail, rest)
      modifies this`bitbuf, this`bitcnt, this`pos
      ensures InputValid() && pos == old(pos) + len
    {
      assert bitcnt - len == 8 * (incnt0 - incnt) + avail;
      bitbuf := rest;
      bitcnt := (bitcnt - len) % 8;
      pos := at;
      assert bitcnt == avail;
    }
  }

  // ----- decoding tables -----

  /** Index in the symbol table of the first symbol of length l. */
  ghost function Offset(ls: seq<nat>, l: nat): nat
    requires l >= 1
  {
    if l == 1 then 0 else Offset(ls, l - 1) + Count(ls, l - 1)
  }

  ghost function Slot(ls: seq<nat>, sym: nat): nat
    requires sym < |ls| && ls[sym] >= 1
  {
    Offset(ls, ls[sym]) + Count(ls[..sym], ls[sym])
  }

  lemma {:induction false} OffsetAbove(ls: seq<nat>, l: nat, m: nat)
    requires 1 <= l < m
    ensures Offset(ls, l) + Count(ls, l) <= Offset(ls, m)
  {
    if l + 1 < m { OffsetAbove(ls, l, m - 1); }
  }

  lemma {:induction false} OffsetExtend(ls: seq<nat>, x: nat, m: nat)
    requires m >= 1
    ensures Offset(ls + [x], m) == Offset(ls, m) + (if 1 <= x < m then 1 else 0)
  {
    assert (ls + [x])[..|ls|] == ls;
    if m > 1 { OffsetExtend(ls, x, m - 1); }
  }

  lemma {:induction false} OffsetBound(ls: seq<nat>, m: nat)
    requires m >= 1
    ensures Offset(ls, m) <= |ls|
  {
    if |ls| == 0 {
      if m > 1 { OffsetBound(ls, m - 1); }
    } else {
      var n := |ls| - 1;
      assert ls == ls[..n] + [ls[n]];
      OffsetBound(ls[..n], m);
      OffsetExtend(ls[..n], ls[n], m);
    }
  }

  lemma {:induction false} SlotBound(ls: seq<nat>, sym: nat)
    requires sym < |ls| && ls[sym] >= 1
    ensures Slot(ls, sym) < |ls|
  {
    CountMono(ls, sym, ls[sym]);
    OffsetBound(ls, ls[sym] + 1);
  }

  lemma {:induction false} SlotsDiffer(ls: seq<nat>, s: nat, t: nat)
    requires s < t < |ls| && ls[s] >= 1 && ls[t] >= 1
    ensures Slot(ls, s) != Slot(ls, t)
  {
    CountMono(ls, s, ls[s]);
    CountMono(ls, t, ls[t]);
    if ls[s] < ls[t] {
      OffsetAbove(ls, ls[s], ls[t]);
    } else if ls[t] < ls[s] {
      OffsetAbove(ls, ls[t], ls[s]);
    } else {
      SameRank(ls, s, t);
    }
  }

  lemma {:induction false} AllZeroCount(ls: Lengths)
    ensures Count(ls, 0) == |ls| <==> !HasCodes(ls)
  {
    if |ls| > 0 {
      var n := |ls| - 1;
      AllZeroCount(ls[..n]);
      if HasCodes(ls[..n]) {
        var i :| 0 <= i < n && ls[..n][i] != 0;
        assert ls[i] != 0;
      }
    }
  }

  /** Each of the first k symbols that has a code is in its slot of the symbol table. */
  ghost predicate Placed(ls: Lengths, tab: seq<nat>, k: nat)
    requires k <= |ls|
  {
    forall s {:trigger Slot(ls, s)} :: 0 <= s < k && ls[s] >= 1 ==> Slot(ls, s) < |tab| && tab[Slot(ls, s)] == s
  }

  lemma {:induction false} PlaceOne(ls: Lengths, tab: seq<nat>, k: nat)
    requires k < |ls| <= |tab| && ls[k] >= 1 && Placed(ls, tab, k)
    ensures Slot(ls, k) < |tab| && Placed(ls, tab[Slot(ls, k) := k], k + 1)
  {
    SlotBound(ls, k);
    forall t | 0 <= t < k && ls[t] >= 1 ensures Slot(ls, t) != Slot(ls, k) {
      SlotsDiffer(ls, t, k);
    }
  }

  class Huffman {
    const count: array<nat>
    const symbol: array<nat>

    constructor (n: nat)
      ensures fresh(count) && fresh(symbol)
      ensures Shape(n)
    {
      count := new nat[16];
      symbol := new nat[n];
    }

    predicate Shape(n: nat) {
      count.Length == 16 && symbol.Length == n && count != symbol
    }

    ghost predicate Counts(ls: seq<nat>)
      reads count
    {
      count.Length == 16 && forall l :: 0 <= l < 16 ==> count[l] == Count(ls, l)
    }

    /** The tables are those of the canonical code with lengths ls. */
    ghost predicate Represents(ls: Lengths)
      reads count, symbol
    {
      && Counts(ls)
      && forall s {:trigger Slot(ls, s)} :: 0 <= s < |ls| && ls[s] >= 1 ==>
           Slot(ls, s) < symbol.Length && symbol[Slot(ls, s)] == s
    }

    /** First loops of puff_construct. */
    method CountLengths(length: array<nat>, from: nat, n: nat, ghost ls: Lengths)
      requires from + n <= length.Length && ls == length[from..from + n]
      requires count.Length == 16 && length != count
      modifies count
      ensures Counts(ls)
    {
      for l := 0 to 16
        invariant forall k :: 0 <= k < l ==> count[k] == 0
      {
        count[l] := 0;
      }
      for s := 0 to n
        invariant forall l {:trigger count[l]} :: 0 <= l < 16 ==> count[l] == Count(ls[..s], l)
      {
        forall l | 0 <= l < 16
          ensures Count(ls[..s + 1], l) == Count(ls[..s], l) + if ls[s] == l then 1 else 0
        {
          CountNext(ls, s, l);
        }
        assert length[from + s] == ls[s];
        count[length[from + s]] := count[length[from + s]] + 1;
      }
      assert ls[..n] == ls;
    }

    /** Last loop of puff_construct: symbols sorted by length, then by value. */
    method SortSymbols(length: array<nat>, from: nat, n: nat, ghost ls: Lengths)
      requires from + n <= length.Length && ls == length[from..from + n]
      requires Counts(ls) && n <= symbol.Length
      requires length != symbol && count != symbol
      modifies symbol
      ensures Represents(ls)
    {
      var offs := Offsets(ls);
      assert ls[..0] == [];
      for s := 0 to n
        invariant forall l {:trigger offs[l]} :: 1 <= l < 16 ==> offs[l] == Offset(ls, l) + Count(ls[..s], l)
        invariant Placed(ls, symbol[..], s)
      {
        forall l | 1 <= l < 16
          ensures Count(ls[..s + 1], l) == Count(ls[..s], l) + if ls[s] == l then 1 else 0
        {
          CountNext(ls, s, l);
        }
        assert length[from + s] == ls[s];
        var l := length[from + s];
        if l != 0 {
          ghost var tab := symbol[..];
          PlaceOne(ls, tab, s);
          symbol[offs[l]] := s;
          assert symbol[..] == tab[Slot(ls, s) := s];
          offs[l] := offs[l] + 1;
        }
      }
    }

    method Offsets(ghost ls: Lengths) returns (offs: array<nat>)
      requires Counts(ls)
      ensures fresh(offs) && offs.Length == 16
      ensures forall l :: 1 <= l < 16 ==> offs[l] == Offset(ls, l)
    {
      offs := new nat[16];
      offs[1] := 0;
      for l := 1 to 15
        invariant forall k :: 1 <= k <= l ==> offs[k] == Offset(ls, k)
      {
        offs[l + 1] := offs[l] + count[l];
      }
    }

    /** puff_construct on length[from..from+n] */
    method Construct(length: array<nat>, from: nat, n: nat) returns (left: int)
      requires from + n <= length.Length
      requires forall i :: from <= i < from + n ==> length[i] <= 15
      requires count.Length == 16 && n <= symbol.Length
      requires length != count && length != symbol && count != symbol
      modifies count, symbol
      ensures var ls: Lengths := length[from..from + n];
              && Counts(ls)
              && (left < 0 <==> Oversubscribed(ls))
              && (left >= 0 && HasCodes(ls) ==> left == 0x8000 - KraftSum(ls))
              && (left == 0 <==> CompleteOrEmpty(ls))
              && (left >= 0 ==> Represents(ls))
    {
      ghost var ls: Lengths := length[from..from + n];
      CountLengths(length, from, n, ls);
      AllZeroCount(ls);
      LeftIsKraft(ls);
      if count[0] == n {
        NoCodesNoKraft(ls);
        return 0;
      }
      left := 1;
      for l := 1 to 16
        invariant left == Left(ls, l - 1) >= 0
      {
        left := 2 * left;
        left := left - count[l];
        if left < 0 {
          NegativeStays(ls, l, MAX_BITS);
          return;
        }
      }
      SortSymbols(length, from, n, ls);
    }
  }

  // ----- decoding one symbol -----

  /** No code of length below len is a prefix of the bits at p. */
  ghost predicate NoMatchBelow(ls: Lengths, bits: seq<bit>, p: nat, len: nat)
    requires 1 <= len && p + len - 1 <= |bits|
  {
    forall l {:trigger CodeBits(bits, p, l)} :: 1 <= l < len ==> CodeBits(bits, p, l) >= FirstCode(ls, l) + Count(ls, l)
  }

  /** The locals of puff_decode before it looks at bit number len of the code. */
  ghost predicate Scanning(ls: Lengths, bits: seq<bit>, p: nat, len: nat, code: nat, first: nat, index: nat)
  {
    && 1 <= len <= 16 && p + len - 1 <= |bits|
    && code == 2 * CodeBits(bits, p, len - 1)
    && first == FirstCode(ls, len) <= code
    && index == Offset(ls, len)
    && NoMatchBelow(ls, bits, p, len)
  }

  lemma {:induction false} NothingMatches(ls: Lengths, bits: seq<bit>, p: nat, len: nat, code: nat, first: nat,
                                          index: nat)
    requires Scanning(ls, bits, p, len, code, first, index)
    requires len == 16 || p + len > |bits|
    ensures NextSymbol(ls, bits, p) == if len == 16 then NoCode else EndOfInput
  {
    forall s: nat | Matches(ls, bits, p, s) ensures false {
      CountMono(ls, s, ls[s]);
    }
  }

  /** The table entry for a code in the range of length len is the symbol that matches. */
  lemma {:induction false} TableLookup(h: Huffman, ls: Lengths, bits: seq<bit>, p: nat, len: nat,
                    code: nat, first: nat, index: nat)
    requires 1 <= len <= 15 && p + len <= |bits| && h.Represents(ls)
    requires code == CodeBits(bits, p, len) && first == FirstCode(ls, len) && index == Offset(ls, len)
    requires first <= code < first + Count(ls, len)
    ensures var i := index + (code - first);
            && i < h.symbol.Length
            && NextSymbol(ls, bits, p) == Symbol(h.symbol[i])
            && h.symbol[i] < |ls| && ls[h.symbol[i]] == len
  {
    var sym := NthSymbol(ls, len, code - first);
    var i := index + (code - first);
    assert Slot(ls, sym) == i;
    assert h.symbol[i] == sym;
    assert Code(ls, sym) == code;
    assert Matches(ls, bits, p, sym);
    FoundSymbol(ls, bits, p, sym);
  }

  lemma {:induction false} AppendBit(x: nat, b: nat)
    requires b < 2
    ensures BitOr(2 * x, b) == 2 * x + b
  {
    OrStep(b, 0, x);
  }

  /** Reading one buffered bit extends the code by that bit. */
  lemma {:induction false} ScanBit(ls: Lengths, bits: seq<bit>, p: nat, len: nat,
                code: nat, first: nat, index: nat, avail: nat, bitbuf: nat)
    requires Scanning(ls, bits, p, len, code, first, index) && len <= 15
    requires Buffered(bits, p + len - 1, avail, bitbuf) && avail > 0
    ensures Buffered(bits, p + len, avail - 1, bitbuf / 2)
    ensures BitOr(code, bitbuf % 2) == CodeBits(bits, p, len) >= first
  {
    var x := CodeBits(bits, p, len - 1);
    assert bitbuf == bits[p + len - 1] + 2 * BitsAt(bits, p + len, avail - 1);
    AppendBit(x, bitbuf % 2);
  }

  lemma {:induction false} ScanMiss(ls: Lengths, bits: seq<bit>, p: nat, len: nat, code: nat, first: nat, index: nat)
    requires Scanning(ls, bits, p, len, code, first, index) && len <= 15 && p + len <= |bits|
    requires CodeBits(bits, p, len) >= first + Count(ls, len)
    ensures Scanning(ls, bits, p, len + 1, 2 * CodeBits(bits, p, len),
                     2 * (first + Count(ls, len)), index + Count(ls, len))
  {
  }

  lemma {:induction false} Refill(bits: seq<bit>, input: seq<byte>, i: nat, p: nat)
    requires Framed(bits, input) && i < |input| && p == 8 * i
    ensures Buffered(bits, p, 8, input[i])
  {
  }

  datatype Scan = Scan(len: nat, code: nat, first: nat, index: nat)

  /** The locals of puff_decode before it looks at bit number len of the code. */
  ghost predicate AtBit(ls: Lengths, bits: seq<bit>, p: nat, c: Scan)
  {
    Scanning(ls, bits, p, c.len, c.code, c.first, c.index)
  }

  /** Inner loop of puff_decode: use up `left` of the `avail` buffered bits, or stop at a symbol. */
  method ScanBuffer(h: Huffman, c0: Scan, bitbuf0: nat, left0: nat,
                    ghost ls: Lengths, ghost bits: seq<bit>, ghost p: nat, ghost avail: nat)
    returns (found: Option<nat>, c: Scan, bitbuf: nat, ghost rest: nat)
    requires h.Represents(ls) && AtBit(ls, bits, p, c0)
    requires left0 <= 16 - c0.len && left0 <= avail
    requires Buffered(bits, p + c0.len - 1, avail, bitbuf0)
    ensures c0.len <= c.len && rest <= avail
    ensures found.None? ==>
              && c.len == c0.len + left0 && rest == avail - left0
              && AtBit(ls, bits, p, c)
              && Buffered(bits, p + c.len - 1, rest, bitbuf)
    ensures found.Some? ==>
              && rest < avail && c.len + rest == c0.len + avail - 1
              && NextSymbol(ls, bits, p) == Symbol(found.value)
              && found.value < |ls| && ls[found.value] == c.len
              && Buffered(bits, p + c.len, rest, bitbuf)
  {
    c, bitbuf, rest := c0, bitbuf0, avail;
    var left: nat := left0;
    while left != 0
      invariant left <= left0 && c.len == c0.len + left0 - left
      invariant left <= rest == avail - left0 + left
      invariant AtBit(ls, bits, p, c)
      invariant Buffered(bits, p + c.len - 1, rest, bitbuf)
    {
      found, c, bitbuf := ScanOne(h, c, bitbuf, ls, bits, p, rest);
      left, rest := left - 1, rest - 1;
      if found.Some? { return; }
    }
    return None, c, bitbuf, rest;
  }

  /** One bit of the buffer. */
  method ScanOne(h: Huffman, c: Scan, bitbuf: nat, ghost ls: Lengths, ghost bits: seq<bit>, ghost p: nat,
                 ghost rest: nat)
    returns (found: Option<nat>, d: Scan, bitbuf': nat)
    requires h.Represents(ls) && AtBit(ls, bits, p, c) && c.len < 16 && rest > 0
    requires Buffered(bits, p + c.len - 1, rest, bitbuf)
    ensures found.None? ==>
              d.len == c.len + 1 && AtBit(ls, bits, p, d) && Buffered(bits, p + d.len - 1, rest - 1, bitbuf')
    ensures found.Some? ==>
              && d == c && NextSymbol(ls, bits, p) == Symbol(found.value)
              && found.value < |ls| && ls[found.value] == c.len
              && Buffered(bits, p + c.len, rest - 1, bitbuf')
  {
    ScanBit(ls, bits, p, c.len, c.code, c.first, c.index, rest, bitbuf);
    var code: nat := BitOr(c.code, bitbuf % 2);
    bitbuf' := bitbuf / 2;
    var count := h.count[c.len];
    if code - count < c.first {
      TableLookup(h, ls, bits, p, c.len, code, c.first, c.index);
      return Some(h.symbol[c.index + (code - c.first)]), c, bitbuf';
    }
    ScanMiss(ls, bits, p, c.len, c.code, c.first, c.index);
    return None, Scan(c.len + 1, 2 * code, 2 * (c.first + count), c.index + count), bitbuf';
  }

  /** puff_decode */
  method Decode(s: PuffState, h: Huffman, ghost ls: Lengths) returns (r: Decoded)
    requires s.InputValid() && h.Represents(ls)
    modifies s`incnt, s`bitbuf, s`bitcnt, s`pos
    ensures s.incnt <= |s.input|
    ensures r == NextSymbol(ls, s.bits, old(s.pos))
    ensures r.Symbol? ==>
              && r.sym < |ls| && ls[r.sym] >= 1
              && s.InputValid()
              && s.pos == old(s.pos) + ls[r.sym]
  {
    ghost var p := s.pos;
    ghost var avail := s.bitcnt;
    var c := Scan(1, 0, 0, 0);
    var bitbuf: nat, left: nat := s.bitbuf, s.bitcnt;
    while true
      invariant 1 <= c.len <= 16 && 0 <= left <= avail <= 8 && left <= 16 - c.len
      invariant left == avail || left == 16 - c.len
      invariant s.incnt <= |s.input| && s.bitcnt == old(s.bitcnt) && s.pos == p
      invariant p + c.len - 1 + avail == 8 * s.incnt
      invariant Buffered(s.bits, p + c.len - 1, avail, bitbuf)
      invariant AtBit(ls, s.bits, p, c)
      decreases 16 - c.len, if left == 0 then 1 else 0
    {
      var found;
      found, c, bitbuf, avail := ScanBuffer(h, c, bitbuf, left, ls, s.bits, p, avail);
      if found.Some? {
        s.KeepRest(bitbuf, c.len, old(s.incnt), p + c.len, avail);
        return Symbol(found.value);
      }
      left := 16 - c.len;
      if left == 0 { break; }
      if s.incnt == |s.input| {
        NothingMatches(ls, s.bits, p, c.len, c.code, c.first, c.index);
        return EndOfInput;
      }
      Refill(s.bits, s.input, s.incnt, p + c.len - 1);
      bitbuf := s.input[s.incnt];
      s.incnt := s.incnt + 1;
      avail := 8;
      if left > 8 { left := 8; }
    }
    NothingMatches(ls, s.bits, p, c.len, c.code, c.first, c.index);
    return NoCode;
  }

  // ----- blocks -----

  lemma {:induction false} OrByte(lo: byte, hi: byte)
    ensures BitOr(lo, Shl(hi, 8)) == (lo as int) + 256 * (hi as int)
  {
    OrShl(lo, hi, 8);
    assert Pow2(8) == 256;
    ShlTwice(hi, 0);
    ShlTwice(hi, 2);
    ShlTwice(hi, 4);
    ShlTwice(hi, 6);
  }

  /** puff_stored */
  method StoredBlock(s: PuffState) returns (err: int)
    requires s.InputValid() && s.OutputValid()
    modifies s, s.out
    ensures s.Agrees(err, Stored(s.input, old(s.pos), old(s.Written()), s.out.Length))
  {
    assert (s.pos + 7) / 8 == s.incnt;
    s.bitbuf, s.bitcnt := 0, 0;
    if s.incnt + 4 > |s.input| { return 2; }
    var len := ReadStoredLength(s);
    if len < 0 { return -2; }
    if s.incnt + len > |s.input| { return 2; }
    if s.outcnt + len > s.out.Length { return 1; }
    CopyInput(s, len);
    s.pos := 8 * s.incnt;
    return 0;
  }

  method ReadStoredLength(s: PuffState) returns (r: int)
    requires s.incnt + 4 <= |s.input|
    modifies s`incnt
    ensures r == StoredLength(s.input, old(s.incnt))
    ensures s.incnt <= |s.input| && (r >= 0 ==> s.incnt == old(s.incnt) + 4)
  {
    OrByte(s.input[s.incnt], s.input[s.incnt + 1]);
    var len: nat := s.input[s.incnt];
    s.incnt := s.incnt + 1;
    len := BitOr(len, Shl(s.input[s.incnt], 8));
    assert len % 256 == s.input[s.incnt - 1] && len / 256 == s.input[s.incnt];
    s.incnt := s.incnt + 1;
    var c := s.input[s.incnt];
    s.incnt := s.incnt + 1;
    if c != 255 - len % 256 { return -1; }
    c := s.input[s.incnt];
    s.incnt := s.incnt + 1;
    if c != 255 - len / 256 % 256 { return -1; }
    return len;
  }

  method CopyInput(s: PuffState, len: nat)
    requires s.OutputValid() && s.incnt + len <= |s.input| && s.outcnt + len <= s.out.Length
    modifies s`incnt, s`outcnt, s.out
    ensures s.OutputValid() && s.incnt == old(s.incnt) + len
    ensures s.Written() == old(s.Written()) + s.input[old(s.incnt)..s.incnt]
  {
    var i := 0;
    while i < len
      invariant 0 <= i <= len
      invariant s.OutputValid()
      invariant s.incnt == old(s.incnt) + i && s.outcnt == old(s.outcnt) + i
      invariant s.Written() == old(s.Written()) + s.input[old(s.incnt)..s.incnt]
    {
      s.Put(s.input[s.incnt]);
      s.incnt := s.incnt + 1;
      i := i + 1;
    }
  }

  /** Copy loop of puff_codes; source and destination may overlap. */
  method CopyOutput(s: PuffState, dist: nat, len: nat)
    requires s.OutputValid() && 1 <= dist <= s.outcnt && s.outcnt + len <= s.out.Length
    modifies s`outcnt, s.out
    ensures s.OutputValid()
    ensures s.Written() == CopyBack(old(s.Written()), dist, len)
  {
    ghost var w := s.Written();
    var n := len;
    while n != 0
      invariant 0 <= n <= len
      invariant s.OutputValid() && dist <= s.outcnt && s.outcnt + n <= s.out.Length
      invariant CopyBack(s.Written(), dist, n) == CopyBack(w, dist, len)
    {
      n := n - 1;
      assert s.out[s.outcnt - dist] == s.Written()[|s.Written()| - dist];
      s.Put(s.out[s.outcnt - dist]);
    }
  }

  /** The tables are not the output buffer. */
  ghost predicate Apart(h: Huffman, s: PuffState) {
    h.count as object != s.out && h.symbol as object != s.out
  }

  /** puff_codes */
  method CodesBlock(s: PuffState, lencode: Huffman, distcode: Huffman, ghost lit: Lengths, ghost dist: Lengths)
    returns (err: int)
    requires s.InputValid() && s.OutputValid()
    requires lencode.Represents(lit) && distcode.Represents(dist) && |dist| <= 30
    requires Apart(lencode, s) && Apart(distcode, s)
    modifies s, s.out
    ensures s.Agrees(err, Codes(lit, dist, s.bits, old(s.pos), old(s.Written()), s.out.Length))
  {
    ghost var r := Codes(lit, dist, s.bits, s.pos, s.Written(), s.out.Length);
    while true
      invariant s.InputValid() && s.OutputValid()
      invariant lencode.Represents(lit) && distcode.Represents(dist)
      invariant Codes(lit, dist, s.bits, s.pos, s.Written(), s.out.Length) == r
      decreases |s.bits| - s.pos
    {
      var more;
      more, err := OneSymbol(s, lencode, distcode, lit, dist);
      if !more { return; }
    }
  }

  /** One turn of the loop of puff_codes. */
  method OneSymbol(s: PuffState, lencode: Huffman, distcode: Huffman, ghost lit: Lengths, ghost dist: Lengths)
    returns (more: bool, err: int)
    requires s.InputValid() && s.OutputValid()
    requires lencode.Represents(lit) && distcode.Represents(dist) && |dist| <= 30
    requires Apart(lencode, s) && Apart(distcode, s)
    modifies s, s.out
    ensures match CodesStep(lit, dist, s.bits, old(s.pos), old(s.Written()), s.out.Length)
            case Stop(r) => !more && s.Agrees(err, r)
            case Continue(q, out) => more && s.InputValid() && s.OutputValid() && s.pos == q && s.Written() == out
  {
    var d := Decode(s, lencode, lit);
    if d.NoCode? { return false, -10; }
    if d.EndOfInput? { return false, 2; }
    if d.sym < 256 {
      if s.outcnt == s.out.Length { return false, 1; }
      s.Put(d.sym);
      return true, 0;
    } else if d.sym > 256 {
      var e, dst, len := CopyCodes(s, distcode, d.sym, dist);
      if e != 0 { return false, e; }
      if dst > s.outcnt { return false, -11; }
      if s.outcnt + len > s.out.Length { return false, 1; }
      CopyOutput(s, dst, len);
      return true, 0;
    }
    return false, 0;
  }

  // The tables of puff_codes.
  const LENS: seq<nat> :=
    [3, 4, 5, 6, 7, 8, 9, 10, 11, 13, 15, 17, 19, 23, 27, 31,
     35, 43, 51, 59, 67, 83, 99, 115, 131, 163, 195, 227, 258]
  const LEXT: seq<nat> :=
    [0, 0, 0, 0, 0, 0, 0, 0, 1, 1, 1, 1, 2, 2, 2, 2,
     3, 3, 3, 3, 4, 4, 4, 4, 5, 5, 5, 5, 0]
  const DISTS: seq<nat> :=
    [1, 2, 3, 4, 5, 7, 9, 13, 17, 25, 33, 49, 65, 97, 129, 193,
     257, 385, 513, 769, 1025, 1537, 2049, 3073, 4097, 6145,
     8193, 12289, 16385, 24577]
  const DEXT: seq<nat> :=
    [0, 0, 0, 0, 1, 1, 2, 2, 3, 3, 4, 4, 5, 5, 6, 6,
     7, 7, 8, 8, 9, 9, 10, 10, 11, 11, 12, 12, 13, 13]

  method LengthCode(i: nat) returns (base: nat, extra: nat)
    requires i < 29
    ensures base == LengthBase(i) && extra == LengthExtra(i)
  {
    if i < 15 { LengthTableLow(i); } else { LengthTableHigh(i); }
    base, extra := LENS[i], LEXT[i];
  }

  method DistCode(i: nat) returns (base: nat, extra: nat)
    requires i < 30
    ensures base == DistBase(i) && extra == DistExtra(i)
  {
    if i < 16 { DistTableLow(i); } else if i < 24 { DistTableMiddle(i); } else { DistTableHigh(i); }
    base, extra := DISTS[i], DEXT[i];
  }

  lemma {:induction false} LengthTableLow(i: nat)
    requires i < 15
    ensures LENS[i] == LengthBase(i) && LEXT[i] == LengthExtra(i)
  {
  }

  lemma {:induction false} LengthTableHigh(i: nat)
    requires 15 <= i < 29
    ensures LENS[i] == LengthBase(i) && LEXT[i] == LengthExtra(i)
  {
  }

  lemma {:induction false} DistTableLow(i: nat)
    requires i < 16
    ensures DISTS[i] == DistBase(i) && DEXT[i] == DistExtra(i)
  {
  }

  lemma {:induction false} DistTableMiddle(i: nat)
    requires 16 <= i < 24
    ensures DISTS[i] == DistBase(i) && DEXT[i] == DistExtra(i)
  {
  }

  lemma {:induction false} DistTableHigh(i: nat)
    requires 24 <= i < 30
    ensures DISTS[i] == DistBase(i) && DEXT[i] == DistExtra(i)
  {
  }

  /** The length/distance part of puff_codes. */
  method CopyCodes(s: PuffState, distcode: Huffman, sym: nat, ghost dist: Lengths)
    returns (err: int, dst: nat, len: nat)
    requires s.InputValid() && sym > 256 && distcode.Represents(dist) && |dist| <= 30
    modifies s`incnt, s`bitbuf, s`bitcnt, s`pos
    ensures s.incnt <= |s.input|
    ensures match LengthDistance(dist, s.bits, old(s.pos), sym)
            case BadCopy(e) => err == e
            case Copy(l, d, next) => err == 0 && len == l && dst == d && s.InputValid() && s.pos == next
  {
    err, dst, len := -10, 0, 0;
    var i: nat := sym - 257;
    if i >= 29 { return; }
    var base, extra := LengthCode(i);
    var x := s.TakeBits(extra);
    if x.None? { return 2, 0, 0; }
    len := base + x.value;
    err, dst := ReadDistance(s, distcode, dist);
  }

  method ReadDistance(s: PuffState, distcode: Huffman, ghost dist: Lengths) returns (err: int, dst: nat)
    requires s.InputValid() && distcode.Represents(dist) && |dist| <= 30
    modifies s`incnt, s`bitbuf, s`bitcnt, s`pos
    ensures s.incnt <= |s.input|
    ensures match Distance(dist, s.bits, old(s.pos))
            case BadDist(e) => err == e
            case Dist(d, next) => err == 0 && dst == d && s.InputValid() && s.pos == next
  {
    var d := Decode(s, distcode, dist);
    if d.NoCode? { return -10, 0; }
    if d.EndOfInput? { return 2, 0; }
    var base, extra := DistCode(d.sym);
    var x := s.TakeBits(extra);
    if x.None? { return 2, 0; }
    return 0, base + x.value;
  }

  /** The static tables of puff_fixed, built on first use. */
  class FixedTables {
    var virgin: bool
    const lencode: Huffman
    const distcode: Huffman

    constructor ()
      ensures Valid()
    {
      virgin := true;
      lencode := new Huffman(288);
      distcode := new Huffman(30);
    }

    ghost predicate Valid()
      reads this, lencode.count, lencode.symbol, distcode.count, distcode.symbol
    {
      && lencode.Shape(288) && distcode.Shape(30)
      && {lencode.count, lencode.symbol} !! {distcode.count, distcode.symbol}
      && (!virgin ==> lencode.Represents(FixedLit()) && distcode.Represents(FixedDist()))
    }

    method BuildLit(lengths: array<nat>)
      requires Valid() && virgin && lengths.Length == 288
      requires lengths !in {lencode.count, lencode.symbol, distcode.count, distcode.symbol}
      modifies lengths, lencode.count, lencode.symbol
      ensures Valid() && lencode.Represents(FixedLit())
    {
      for sym := 0 to 144
        invariant forall i :: 0 <= i < sym ==> lengths[i] == FixedLength(i)
      {
        lengths[sym] := 8;
      }
      for sym := 144 to 256
        invariant forall i :: 0 <= i < sym ==> lengths[i] == FixedLength(i)
      {
        lengths[sym] := 9;
      }
      for sym := 256 to 280
        invariant forall i :: 0 <= i < sym ==> lengths[i] == FixedLength(i)
      {
        lengths[sym] := 7;
      }
      for sym := 280 to 288
        invariant forall i :: 0 <= i < sym ==> lengths[i] == FixedLength(i)
      {
        lengths[sym] := 8;
      }
      assert lengths[0..288] == FixedLit();
      FixedLitKraft();
      var _ := lencode.Construct(lengths, 0, 288);
    }

    method BuildDist(lengths: array<nat>)
      requires Valid() && virgin && lengths.Length == 288
      requires lengths !in {lencode.count, lencode.symbol, distcode.count, distcode.symbol}
      modifies lengths, distcode.count, distcode.symbol
      ensures Valid() && distcode.Represents(FixedDist())
    {
      for sym := 0 to 30
        invariant forall i :: 0 <= i < sym ==> lengths[i] == 5
      {
        lengths[sym] := 5;
      }
      assert lengths[0..30] == FixedDist();
      FixedDistKraft();
      var _ := distcode.Construct(lengths, 0, 30);
    }

    method Build()
      requires Valid() && virgin
      modifies this`virgin, lencode.count, lencode.symbol, distcode.count, distcode.symbol
      ensures Valid() && !virgin
    {
      var lengths := new nat[288];
      BuildLit(lengths);
      BuildDist(lengths);
      virgin := false;
    }
  }

  /** puff_fixed */
  method FixedBlock(s: PuffState, fixed: FixedTables) returns (err: int)
    requires s.InputValid() && s.OutputValid() && fixed.Valid()
    requires Apart(fixed.lencode, s) && Apart(fixed.distcode, s)
    modifies s, s.out, fixed, fixed.lencode.count, fixed.lencode.symbol, fixed.distcode.count, fixed.distcode.symbol
    ensures fixed.Valid()
    ensures s.Agrees(err, Codes(FixedLit(), FixedDist(), s.bits, old(s.pos), old(s.Written()), s.out.Length))
  {
    if fixed.virgin { fixed.Build(); }
    err := CodesBlock(s, fixed.lencode, fixed.distcode, FixedLit(), FixedDist());
  }

  // ----- dynamic blocks -----

  /** First n code length code lengths, as they were sent. */
  ghost predicate Sent(bits: seq<bit>, p: nat, ncode: nat, lengths: seq<nat>, n: nat)
    requires p + 3 * ncode <= |bits| && n <= 19 <= |lengths|
  {
    forall i :: 0 <= i < n ==> lengths[Order(i)] == SentLength(bits, p, ncode, i)
  }

  lemma {:induction false} SendOne(bits: seq<bit>, p: nat, ncode: nat, lengths: seq<nat>, n: nat)
    requires p + 3 * ncode <= |bits| && n < 19 <= |lengths| && Sent(bits, p, ncode, lengths, n)
    ensures Sent(bits, p, ncode, lengths[Order(n) := SentLength(bits, p, ncode, n)], n + 1)
  {
    OrderDiffers(n);
  }

  lemma {:induction false} SentAll(bits: seq<bit>, p: nat, ncode: nat, lengths: seq<nat>)
    requires ncode <= 19 && p + 3 * ncode <= |bits| && 19 <= |lengths| && Sent(bits, p, ncode, lengths, 19)
    ensures lengths[..19] == CodeLengthLengths(bits, p, ncode)
  {
    var cl := CodeLengthLengths(bits, p, ncode);
    forall s | 0 <= s < 19 ensures lengths[s] == cl[s] {
      SentInverse(s);
      assert lengths[Order(SentAt(s))] == SentLength(bits, p, ncode, SentAt(s));
    }
  }

  /** First loops of puff_dynamic: the code length code lengths. */
  method ReadCodeLengths(s: PuffState, lengths: array<nat>, ncode: nat) returns (ok: bool)
    requires s.InputValid() && ncode <= 19 <= lengths.Length
    modifies s`incnt, s`bitbuf, s`bitcnt, s`pos, lengths
    ensures s.incnt <= |s.input|
    ensures ok <==> old(s.pos) + 3 * ncode <= |s.bits|
    ensures ok ==>
              && s.InputValid() && s.pos == SentEnd(old(s.pos), ncode)
              && lengths[..19] == CodeLengthLengths(s.bits, old(s.pos), ncode)
  {
    ghost var p := s.pos;
    var index := 0;
    while index < ncode
      invariant 0 <= index <= ncode
      invariant s.InputValid() && s.pos == p + 3 * index
      invariant p + 3 * ncode <= |s.bits| ==> Sent(s.bits, p, ncode, lengths[..], index)
    {
      var x := s.TakeBits(3);
      if x.None? { return false; }
      if p + 3 * ncode <= |s.bits| { SendOne(s.bits, p, ncode, lengths[..], index); }
      lengths[Order(index)] := x.value;
      index := index + 1;
    }
    while index < 19
      invariant ncode <= index <= 19
      invariant s.InputValid() && s.pos == p + 3 * ncode
      invariant Sent(s.bits, p, ncode, lengths[..], index)
    {
      SendOne(s.bits, p, ncode, lengths[..], index);
      lengths[Order(index)] := 0;
      index := index + 1;
    }
    SentAll(s.bits, p, ncode, lengths[..]);
    return true;
  }

  lemma {:induction false} OrderDiffers(j: nat)
    requires j < 19
    ensures Order(j) < 19
    ensures forall i :: 0 <= i < j ==> Order(i) != Order(j)
  {
    OrderInverse(j);
    forall i | 0 <= i < j ensures Order(i) != Order(j) {
      OrderInverse(i);
    }
  }

  /** One turn of the loop of puff_dynamic that reads code lengths. */
  method OneLength(s: PuffState, h: Huffman, lengths: array<nat>, index: nat, total: nat, ghost cl: Lengths)
    returns (err: int, index': nat)
    requires s.InputValid() && h.Represents(cl) && |cl| == 19
    requires index < total <= lengths.Length
    requires forall i :: 0 <= i < index ==> lengths[i] <= 15
    requires lengths != h.count && lengths != h.symbol
    modifies s`incnt, s`bitbuf, s`bitcnt, s`pos, lengths
    ensures s.incnt <= |s.input|
    ensures match ReadLengthsStep(cl, s.bits, old(s.pos), old(lengths[..index]), total)
            case LengthsBad(e) => err == e
            case LengthsMore(q, acc) =>
              && err == 0 && s.InputValid() && s.pos == q
              && index' == |acc| && lengths[..index'] == acc
  {
    index' := index;
    ghost var p := s.pos;
    ghost var acc: Lengths := lengths[..index];
    var d := Decode(s, h, cl);
    if d.NoCode? { return -10, index'; }
    if d.EndOfInput? { return 2, index'; }
    var sym := d.sym;
    ghost var q := p + cl[sym];
    if sym < 16 {
      lengths[index] := sym;
      assert lengths[..index + 1] == acc + [sym];
      return 0, index + 1;
    }
    var len := 0;
    var n: nat, extra: nat := 11, 7;
    if sym == 16 {
      if index == 0 { return -5, index'; }
      len := lengths[index - 1];
      n, extra := 3, 2;
    } else if sym == 17 {
      n, extra := 3, 3;
    }
    var x := s.TakeBits(extra);
    if x.None? { return 2, index'; }
    n := n + x.value;
    if index + n > total { return -6, index'; }
    Fill(lengths, index, n, len);
    assert lengths[..index + n] == acc + Repeat(len, n);
    return 0, index + n;
  }

  method Fill(lengths: array<nat>, index: nat, n: nat, len: nat)
    requires index + n <= lengths.Length
    modifies lengths
    ensures lengths[..index] == old(lengths[..index])
    ensures forall i :: index <= i < index + n ==> lengths[i] == len
  {
    var i := 0;
    while i < n
      invariant 0 <= i <= n
      invariant lengths[..index] == old(lengths[..index])
      invariant forall j :: index <= j < index + i ==> lengths[j] == len
    {
      lengths[index + i] := len;
      i := i + 1;
    }
  }

  method ReadAllLengths(s: PuffState, h: Huffman, lengths: array<nat>, total: nat, ghost cl: Lengths,
                        ghost r: LengthsResult)
    returns (err: int)
    requires s.InputValid() && h.Represents(cl) && |cl| == 19 && total <= lengths.Length
    requires r == ReadLengths(cl, s.bits, s.pos, [], total)
    requires lengths != h.count && lengths != h.symbol
    modifies s`incnt, s`bitbuf, s`bitcnt, s`pos, lengths
    ensures s.incnt <= |s.input|
    ensures match r
            case Bad(e) => err == e
            case Read(q, ls) => err == 0 && s.InputValid() && s.pos == q && lengths[..total] == ls
  {
    var index := 0;
    assert lengths[..index] == [];
    while index < total
      invariant 0 <= index <= total
      invariant s.InputValid() && h.Represents(cl)
      invariant forall i :: 0 <= i < index ==> lengths[i] <= 15
      invariant ReadLengths(cl, s.bits, s.pos, lengths[..index], total) == r
      decreases total - index
    {
      err, index := OneLength(s, h, lengths, index, total, cl);
      if err != 0 { return; }
    }
    return 0;
  }

  lemma {:induction false} ZeroOrOne(ls: Lengths)
    ensures Count(ls, 0) + Count(ls, 1) <= |ls|
    ensures Count(ls, 0) + Count(ls, 1) == |ls| <==> forall i :: 0 <= i < |ls| ==> ls[i] <= 1
  {
    if |ls| > 0 {
      var n := |ls| - 1;
      ZeroOrOne(ls[..n]);
      assert forall i :: 0 <= i < |ls| ==> ls[i] == if i < n then ls[..n][i] else ls[n];
    }
  }

  /** puff_construct and the check behind it: the code may be used in a block. */
  method BuildUsable(h: Huffman, lengths: array<nat>, from: nat, n: nat) returns (ok: bool)
    requires from + n <= lengths.Length
    requires forall i :: from <= i < from + n ==> lengths[i] <= 15
    requires h.count.Length == 16 && n <= h.symbol.Length
    requires lengths != h.count && lengths != h.symbol && h.count != h.symbol
    modifies h.count, h.symbol
    ensures var ls: Lengths := lengths[from..from + n];
            ok == Usable(ls) && (ok ==> h.Represents(ls))
  {
    ghost var ls: Lengths := lengths[from..from + n];
    var err := h.Construct(lengths, from, n);
    ZeroOrOne(ls);
    NoCodesNoKraftIf(ls);
    ok := !(err != 0 && (err < 0 || n != h.count[0] + h.count[1]));
  }

  lemma {:induction false} NoCodesNoKraftIf(ls: Lengths)
    ensures !HasCodes(ls) ==> KraftSum(ls) == 0
  {
    if !HasCodes(ls) { NoCodesNoKraft(ls); }
  }

  method DynamicCounts(s: PuffState) returns (ok: bool, nlen: nat, ndist: nat, ncode: nat)
    requires s.InputValid()
    modifies s`incnt, s`bitbuf, s`bitcnt, s`pos
    ensures s.incnt <= |s.input|
    ensures ok <==> old(s.pos) + 14 <= |s.bits|
    ensures ok ==>
              && s.InputValid() && s.pos == old(s.pos) + 14
              && nlen == BitsAt(s.bits, old(s.pos), 5) + 257
              && ndist == BitsAt(s.bits, old(s.pos) + 5, 5) + 1
              && ncode == CodeLengthCount(s.bits, old(s.pos) + 10)
  {
    ok, nlen, ndist, ncode := false, 0, 0, 0;
    var x := s.TakeBits(5);
    if x.None? { return; }
    nlen := x.value + 257;
    x := s.TakeBits(5);
    if x.None? { return; }
    ndist := x.value + 1;
    x := s.TakeBits(4);
    if x.None? { return; }
    ncode := x.value + 4;
    ok := true;
  }

  /** The code length code: its lengths, and tables for it if it is complete. */
  method CodeLengthCode(s: PuffState, h: Huffman, lengths: array<nat>, ncode: nat, ghost total: nat,
                        ghost all: LengthsResult)
    returns (err: int, ghost cl: Lengths)
    requires s.InputValid() && ncode <= 19 <= lengths.Length && h.Shape(286)
    requires lengths != h.count && lengths != h.symbol && all == AllLengths(s.bits, s.pos, ncode, total)
    modifies s`incnt, s`bitbuf, s`bitcnt, s`pos, lengths, h.count, h.symbol
    ensures s.incnt <= |s.input|
    ensures err != 0 ==> all == Bad(err)
    ensures err == 0 ==> s.InputValid() && |cl| == 19 && h.Represents(cl)
                         && all == ReadLengths(cl, s.bits, s.pos, [], total)
  {
    cl := [];
    ghost var p := s.pos;
    var ok := ReadCodeLengths(s, lengths, ncode);
    if !ok { return 2, cl; }
    cl := lengths[..19];
    ok := BuildComplete(h, lengths, cl);
    if ok {
      GoodCodeLengths(s.bits, p, ncode, total, cl);
      return 0, cl;
    } else {
      BadCodeLengths(s.bits, p, ncode, total, cl);
      return -4, cl;
    }
  }

  /** puff_construct and the check behind it for the code length code. */
  method BuildComplete(h: Huffman, lengths: array<nat>, ghost cl: Lengths) returns (ok: bool)
    requires lengths.Length >= 19 && cl == lengths[..19] && h.Shape(286) && lengths != h.count && lengths != h.symbol
    modifies h.count, h.symbol
    ensures ok == !(Oversubscribed(cl) || Incomplete(cl)) && (ok ==> h.Represents(cl))
  {
    assert forall i :: 0 <= i < 19 ==> lengths[i] == cl[i];
    assert lengths[0..0 + 19] == cl;
    var left := h.Construct(lengths, 0, 19);
    NoCodesNoKraftIf(cl);
    return left == 0;
  }

  /** puff_dynamic behind the complete list of code lengths: build both codes. */
  method BuildCodes(lencode: Huffman, distcode: Huffman, lengths: array<nat>, nlen: nat, ndist: nat) returns (err: int)
    requires 257 <= nlen <= 286 && ndist <= 30 && nlen + ndist <= lengths.Length
    requires forall i :: 0 <= i < nlen + ndist ==> lengths[i] <= 15
    requires lencode.Shape(286) && distcode.Shape(30)
    requires {lencode.count, lencode.symbol} !! {distcode.count, distcode.symbol}
    requires lengths !in {lencode.count, lencode.symbol, distcode.count, distcode.symbol}
    modifies lencode.count, lencode.symbol, distcode.count, distcode.symbol
    ensures match HeaderWithLengths(lengths[..nlen + ndist], nlen, 0)
            case BadHeader(e) => err == e
            case Header(lit, dist, _) => err == 0 && lencode.Represents(lit) && distcode.Represents(dist)
  {
    ghost var ls: Lengths := lengths[..nlen + ndist];
    if lengths[256] == 0 { return -9; }
    assert lengths[0..0 + nlen] == ls[..nlen] && lengths[nlen..nlen + ndist] == ls[nlen..];
    var ok := BuildUsable(lencode, lengths, 0, nlen);
    if !ok { return -7; }
    ok := BuildUsable(distcode, lengths, nlen, ndist);
    if !ok { return -8; }
    return 0;
  }

  /** puff_dynamic behind its three counts, up to both codes. */
  method HeaderTables(s: PuffState, lencode: Huffman, distcode: Huffman, nlen: nat, ndist: nat, ncode: nat)
    returns (err: int)
    requires s.InputValid() && 257 <= nlen <= 286 && ndist <= 30 && ncode <= 19
    requires lencode.Shape(286) && distcode.Shape(30)
    requires {lencode.count, lencode.symbol} !! {distcode.count, distcode.symbol}
    modifies s`incnt, s`bitbuf, s`bitcnt, s`pos
    modifies lencode.count, lencode.symbol, distcode.count, distcode.symbol
    ensures s.incnt <= |s.input|
    ensures s.HeaderAgrees(err, lencode, distcode, HeaderWithCounts(s.bits, old(s.pos), nlen, ndist, ncode))
  {
    var lengths := new nat[316];
    ghost var r := AllLengths(s.bits, s.pos, ncode, nlen + ndist);
    err := LoadLengths(s, lencode, lengths, ncode, nlen + ndist, r);
    if err != 0 { return; }
    assert forall i :: 0 <= i < nlen + ndist ==> lengths[i] == r.ls[i];
    err := BuildCodes(lencode, distcode, lengths, nlen, ndist);
  }

  /** The code length code, then the code lengths written in it. */
  method LoadLengths(s: PuffState, h: Huffman, lengths: array<nat>, ncode: nat, total: nat, ghost all: LengthsResult)
    returns (err: int)
    requires s.InputValid() && h.Shape(286) && ncode <= 19 && total <= lengths.Length == 316
    requires all == AllLengths(s.bits, s.pos, ncode, total)
    requires lengths != h.count && lengths != h.symbol
    modifies s`incnt, s`bitbuf, s`bitcnt, s`pos, lengths, h.count, h.symbol
    ensures s.incnt <= |s.input|
    ensures match all
            case Bad(e) => err == e
            case Read(q, ls) => err == 0 && s.InputValid() && s.pos == q && lengths[..total] == ls
  {
    ghost var cl;
    err, cl := CodeLengthCode(s, h, lengths, ncode, total, all);
    if err != 0 { return; }
    err := ReadAllLengths(s, h, lengths, total, cl, all);
  }

  lemma {:induction false} BadCodeLengths(bits: seq<bit>, p: nat, ncode: nat, total: nat, cl: Lengths)
    requires ncode <= 19 && p + 3 * ncode <= |bits| && cl == CodeLengthLengths(bits, p, ncode)
    requires Oversubscribed(cl) || Incomplete(cl)
    ensures AllLengths(bits, p, ncode, total) == Bad(-4)
  {
  }

  lemma {:induction false} GoodCodeLengths(bits: seq<bit>, p: nat, ncode: nat, total: nat, cl: Lengths)
    requires ncode <= 19 && p + 3 * ncode <= |bits| && cl == CodeLengthLengths(bits, p, ncode)
    requires !(Oversubscribed(cl) || Incomplete(cl))
    ensures AllLengths(bits, p, ncode, total) == ReadLengths(cl, bits, SentEnd(p, ncode), [], total)
  {
  }

  /** puff_dynamic */
  method DynamicBlock(s: PuffState) returns (err: int)
    requires s.InputValid() && s.OutputValid()
    modifies s, s.out
    ensures s.Agrees(err, Dynamic(s.bits, old(s.pos), old(s.Written()), s.out.Length))
  {
    ghost var h := DynamicHeader(s.bits, s.pos);
    var lencode := new Huffman(286);
    var distcode := new Huffman(30);
    err := ReadHeader(s, lencode, distcode);
    if err != 0 { return; }
    err := CodesBlock(s, lencode, distcode, h.lit, h.dist);
  }

  method ReadHeader(s: PuffState, lencode: Huffman, distcode: Huffman) returns (err: int)
    requires s.InputValid() && lencode.Shape(286) && distcode.Shape(30)
    requires {lencode.count, lencode.symbol} !! {distcode.count, distcode.symbol}
    modifies s`incnt, s`bitbuf, s`bitcnt, s`pos
    modifies lencode.count, lencode.symbol, distcode.count, distcode.symbol
    ensures s.incnt <= |s.input|
    ensures s.HeaderAgrees(err, lencode, distcode, DynamicHeader(s.bits, old(s.pos)))
  {
    var ok, nlen, ndist, ncode := DynamicCounts(s);
    if !ok { return 2; }
    if nlen > 286 || ndist > 30 { return -3; }
    err := HeaderTables(s, lencode, distcode, nlen, ndist, ncode);
  }

  method BlockHeader(s: PuffState) returns (ok: bool, last: nat, kind: nat)
    requires s.InputValid()
    modifies s`incnt, s`bitbuf, s`bitcnt, s`pos
    ensures s.incnt <= |s.input|
    ensures ok <==> old(s.pos) + 3 <= |s.bits|
    ensures ok ==>
              && s.InputValid() && s.pos == old(s.pos) + 3
              && last == s.bits[old(s.pos)] && kind == BitsAt(s.bits, old(s.pos) + 1, 2)
  {
    ok, last, kind := false, 0, 0;
    var x := s.TakeBits(1);
    if x.None? { return; }
    last := x.value;
    x := s.TakeBits(2);
    if x.None? { return; }
    ok, kind := true, x.value;
  }

  /** One turn of the loop of puff. */
  method OneBlock(s: PuffState, fixed: FixedTables) returns (more: bool, err: int)
    requires s.InputValid() && s.OutputValid() && fixed.Valid() && s.bits == ToBits(s.input)
    requires Apart(fixed.lencode, s) && Apart(fixed.distcode, s)
    modifies s, s.out, fixed, fixed.lencode.count, fixed.lencode.symbol, fixed.distcode.count, fixed.distcode.symbol
    ensures fixed.Valid()
    ensures old(s.pos) + 3 > |s.bits| ==> !more && s.Agrees(err, Fail(2, old(s.Written())))
    ensures old(s.pos) + 3 <= |s.bits| ==>
              && s.Agrees(err, Block(s.input, old(s.pos), old(s.Written()), s.out.Length))
              && more == (err == 0 && s.bits[old(s.pos)] != 1)
  {
    var ok, last, kind := BlockHeader(s);
    if !ok { return false, 2; }
    err := DecodeBlock(s, kind, fixed);
    more := err == 0 && last == 0;
  }

  method DecodeBlock(s: PuffState, kind: nat, fixed: FixedTables) returns (err: int)
    requires s.InputValid() && s.OutputValid() && fixed.Valid() && s.bits == ToBits(s.input)
    requires Apart(fixed.lencode, s) && Apart(fixed.distcode, s)
    modifies s, s.out, fixed, fixed.lencode.count, fixed.lencode.symbol, fixed.distcode.count, fixed.distcode.symbol
    ensures fixed.Valid()
    ensures s.Agrees(err, BlockData(s.input, kind, old(s.pos), old(s.Written()), s.out.Length))
  {
    if kind == 0 {
      err := StoredBlock(s);
    } else if kind == 1 {
      err := FixedBlock(s, fixed);
    } else if kind == 2 {
      err := DynamicBlock(s);
    } else {
      err := -1;
    }
  }

  /** puff */
  method Puff(dest: array<byte>, source: seq<byte>, fixed: FixedTables) returns (err: int, destlen: nat)
    requires forall i :: 0 <= i < dest.Length ==> dest[i] == 0
    requires fixed.Valid()
    requires fixed.lencode.count as object != dest && fixed.lencode.symbol as object != dest
    requires fixed.distcode.count as object != dest && fixed.distcode.symbol as object != dest
    modifies dest, fixed, fixed.lencode.count, fixed.lencode.symbol, fixed.distcode.count, fixed.distcode.symbol
    ensures fixed.Valid()
    ensures destlen <= dest.Length
    ensures match Inflate(source, 0, [], dest.Length)
            case Done(_, out) => err == 0 && dest[..destlen] == out
            case Fail(e, out) => err == e && dest[..destlen] == out
    ensures forall i :: destlen <= i < dest.Length ==> dest[i] == 0
  {
    var s := new PuffState(source, dest);
    ghost var r := Inflate(source, 0, [], dest.Length);
    err := 0;
    while true
      invariant s.input == source && s.out == dest && s.bits == ToBits(source)
      invariant s.InputValid() && s.OutputValid() && fixed.Valid()
      invariant Inflate(source, s.pos, s.Written(), dest.Length) == r
      decreases |s.bits| - s.pos
    {
      var more;
      more, err := OneBlock(s, fixed);
      if !more { break; }
    }
    return err, s.outcnt;
  }
}
