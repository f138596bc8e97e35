/** The allocator of program memory (memAlloc in prog/alloc.go): a two-level bitmap with lazily made rows. */
module MemAlloc {
  import opened Bits
  import opened Basics

  const GRANULE: nat := 64
  const ROWS: nat := 64               // memAllocL1Size
  const ROW_WORDS: nat := 64          // memAllocL0Size
  const ROW_BITS: nat := 4096
  const ALL_BITS: nat := 0x4_0000
  const TWO64: nat := 0x1_0000_0000_0000_0000
  const MAX_UNITS: nat := 0x400_0000_0000_0000
  const MAX_CURSOR: nat := 0x1000_0000_0000_0000

  /** Granules n bytes take up, in 64-bit arithmetic. */
  function Granules(n: nat): nat { (n + GRANULE - 1) % TWO64 / GRANULE }

  predicate Fits(taken: set<nat>, s: nat, n: nat) {
    forall i :: s <= i < s + n ==> i !in taken
  }

  /** The first place for n granules among s, s + step, s + 2 * step, ... up to last. */
  function FirstFit(taken: set<nat>, n: nat, s: nat, last: int, step: nat): Option<nat>
    requires step > 0
    decreases last - s
  {
    if s > last then None
    else if Fits(taken, s, n) then Some(s)
    else FirstFit(taken, n, s + step, last, step)
  }

  ghost predicate Multiple(s: nat, a: nat) { exists k: nat :: s == Times(k, a) }

  function Times(k: nat, a: nat): nat { k * a }

  lemma {:induction false} MultiplePlus(s: nat, a: nat, j: nat)
    requires Multiple(s, a)
    ensures Multiple(s + Times(j, a), a)
  {
    var k: nat :| s == Times(k, a);
    assert Times(k + j, a) == Times(k, a) + Times(j, a);
  }

  /** What the search returns is free, in range and aligned, and nothing before it would have done. */
  lemma {:induction false} FirstFitIs(taken: set<nat>, n: nat, s: nat, last: int, step: nat, t: nat)
    requires step > 0 && Multiple(s, step)
    ensures var r := FirstFit(taken, n, s, last, step);
            && (r.Some? ==> s <= r.value <= last && Fits(taken, r.value, n) && Multiple(r.value, step))
            && (s <= t <= last && Multiple(t, step) && Fits(taken, t, n) ==> r.Some? && r.value <= t)
    decreases last - s
  {
    if s <= last && !Fits(taken, s, n) {
      assert Times(1, step) == step;
      MultiplePlus(s, step, 1);
      FirstFitIs(taken, n, s + step, last, step, t);
      if s < t < s + step && Multiple(t, step) { NoMultipleBetween(s, t, step); }
    }
  }

  lemma {:induction false} NoMultipleBetween(s: nat, t: nat, a: nat)
    requires Multiple(s, a) && Multiple(t, a) && s < t
    ensures t >= s + a
  {
    var k: nat :| s == Times(k, a);
    var j: nat :| t == Times(j, a);
    if j <= k { TimesMono(j, k, a); }
    TimesMono(k + 1, j, a);
    assert Times(k + 1, a) == Times(k, a) + a;
  }

  lemma {:induction false} TimesMono(j: nat, k: nat, a: nat)
    requires j <= k
    ensures Times(j, a) <= Times(k, a)
  {
    assert Times(k, a) == Times(j, a) + Times(k - j, a);
  }

  /** The words of the bitmap show exactly the granules in use. */
  ghost predicate Shows(words: seq<nat>, taken: set<nat>) {
    && |words| == ALL_BITS / 64
    && (forall i :: i in taken ==> i < ALL_BITS)
    && (forall i: nat :: i < ALL_BITS ==> (Bit(words[i / 64], i % 64) <==> i in taken))
  }

  lemma {:induction false} SetOne(words: seq<nat>, taken: set<nat>, idx: nat)
    requires Shows(words, taken) && idx < ALL_BITS
    ensures Shows(words[idx / 64 := WithBit(words[idx / 64], idx % 64, true)], taken + {idx})
  {
    var w := words[idx / 64 := WithBit(words[idx / 64], idx % 64, true)];
    forall i: nat | i < ALL_BITS ensures Bit(w[i / 64], i % 64) <==> i in taken + {idx} {
      if i / 64 == idx / 64 { WithBitIs(words[i / 64], idx % 64, true, i % 64); }
    }
  }

  /** words with row i cleared */
  function Cleared(words: seq<nat>, i: nat): (r: seq<nat>)
    requires |words| == ALL_BITS / 64 && i < ROWS
    ensures |r| == |words|
    ensures forall k :: 0 <= k < |r| ==> r[k] == if k / ROW_WORDS == i then 0 else words[k]
  {
    seq(|words|, k requires 0 <= k < |words| => if k / ROW_WORDS == i then 0 else words[k])
  }

  function OutsideRow(taken: set<nat>, i: nat): set<nat> { set t | t in taken && t / ROW_BITS != i }

  lemma {:induction false} ClearedShows(words: seq<nat>, taken: set<nat>, i: nat)
    requires Shows(words, taken) && i < ROWS
    ensures Shows(Cleared(words, i), OutsideRow(taken, i))
  {
    forall t: nat | t < ALL_BITS ensures Bit(Cleared(words, i)[t / 64], t % 64) <==> t in OutsideRow(taken, i) {
      assert t / 64 / ROW_WORDS == t / ROW_BITS;
      ZeroHasNoBits(t % 64);
    }
  }

  class MemAlloc {
    const size: nat
    var mem: seq<array?<nat>>
    var last: map<nat, nat>
    ghost var words: seq<nat>
    ghost var taken: set<nat>

    ghost predicate Shape()
      reads this`mem, mem
    {
      && |mem| == ROWS
      && (forall i :: 0 <= i < |mem| ==> mem[i] != null ==> mem[i].Length == ROW_WORDS)
      && (forall i, j :: 0 <= i < j < |mem| ==> mem[i] == null || mem[i] != mem[j])
    }

    /** Word j of row i; rows that were never made are zero. */
    ghost predicate Holds(i: nat, j: nat)
      requires Shape() && i < ROWS && j < ROW_WORDS && |words| == ALL_BITS / 64
      reads this`mem, this`words, mem
    {
      words[i * ROW_WORDS + j] == if mem[i] == null then 0 else mem[i][j]
    }

    ghost predicate Valid()
      reads this, mem
    {
      && Shape() && size <= ALL_BITS && size % ROW_BITS == 0
      && Shows(words, taken)
      && (forall i: nat, j: nat :: i < ROWS && j < ROW_WORDS ==> Holds(i, j))
      && (forall a :: a in last ==> a > 0 && Multiple(last[a], a) && last[a] <= MAX_CURSOR)
    }

    constructor (total: nat)
      requires total <= 0x100_0000 && total % 0x4_0000 == 0
      ensures Valid() && taken == {} && last == map[] && size == total / GRANULE
      ensures forall k :: 0 <= k < ROWS ==> mem[k] == null || fresh(mem[k])
    {
      size := total / GRANULE;
      var buf := new nat[ROW_WORDS](_ => 0);
      mem := seq(ROWS, i => if i == 0 then buf else null);
      last, words, taken := map[], seq(ALL_BITS / 64, _ => 0), {};
      new;
      forall i: nat | i < ALL_BITS ensures !Bit(words[i / 64], i % 64) { ZeroHasNoBits(i % 64); }
    }

    method Get(idx: nat) returns (b: bool)
      requires Valid() && idx < ALL_BITS
      ensures b <==> idx in taken
    {
      var i1, r1 := idx / ROW_BITS, idx % ROW_BITS;
      assert i1 * ROW_WORDS + r1 / 64 == idx / 64 && r1 % 64 == idx % 64;
      assert Holds(i1, r1 / 64);
      if mem[i1] == null {
        ZeroHasNoBits(idx % 64);
        return false;
      }
      return Bit(mem[i1][r1 / 64], r1 % 64);
    }

    method Set(idx: nat)
      requires Valid() && idx < ALL_BITS
      modifies this`mem, this`words, this`taken, mem
      ensures Valid() && taken == old(taken) + {idx}
      ensures forall k {:trigger mem[k]} :: 0 <= k < ROWS ==> mem[k] == old(mem)[k] || fresh(mem[k])
    {
      var i1, r1 := idx / ROW_BITS, idx % ROW_BITS;
      var i0 := r1 / 64;
      assert i1 * ROW_WORDS + i0 == idx / 64 && r1 % 64 == idx % 64;
      if mem[i1] == null { MakeRow(i1); }
      assert Holds(i1, i0);
      SetOne(words, taken, idx);
      label L:
      mem[i1][i0] := WithBit(mem[i1][i0], r1 % 64, true);
      words := words[idx / 64 := WithBit(words[idx / 64], idx % 64, true)];
      taken := taken + {idx};
      forall i: nat, j: nat | i < ROWS && j < ROW_WORDS ensures Holds(i, j) {
        assert old@L(Holds(i, j));
        assert i * ROW_WORDS + j == idx / 64 <==> i == i1 && j == i0;
      }
    }

    /** A row of zeros. */
    method MakeRow(i: nat)
      requires Valid() && i < ROWS && mem[i] == null
      modifies this`mem
      ensures Valid() && mem[i] != null && fresh(mem[i]) && mem == old(mem)[i := mem[i]]
    {
      var row := new nat[ROW_WORDS](_ => 0);
      mem := mem[i := row];
      forall i': nat, j: nat | i' < ROWS && j < ROW_WORDS ensures Holds(i', j) {
        assert old(Holds(i', j));
      }
    }

    /** noteAlloc; false where the source panics, with the granules up to the end of the bitmap noted. */
    method NoteAlloc(addr0: nat, size0: nat) returns (ok: bool)
      requires Valid() && addr0 < TWO64 && size0 < TWO64
      modifies this`mem, this`words, this`taken, mem
      ensures Valid()
      ensures var a, n := addr0 / GRANULE, Extent(addr0, size0);
              && (ok <==> n == 0 || a + n <= ALL_BITS)
              && (forall i :: i in taken <==> i in old(taken) || a <= i < (if ok then a + n else ALL_BITS))
      ensures forall k {:trigger mem[k]} :: 0 <= k < ROWS ==> mem[k] == old(mem)[k] || fresh(mem[k])
    {
      var addr := addr0 / GRANULE;
      var n := (Granules(addr0 + size0) - addr) % TWO64;
      var i := 0;
      while i < n
        invariant 0 <= i <= n && Valid() && (i > 0 ==> addr + i <= ALL_BITS)
        invariant forall k :: k in taken <==> k in old(taken) || addr <= k < addr + i
        invariant forall k {:trigger mem[k]} :: 0 <= k < ROWS ==> mem[k] == old(mem)[k] || fresh(mem[k])
      {
        if addr + i >= ALL_BITS { return false; }
        Set(addr + i);
        i := i + 1;
      }
      return true;
    }

    method ClearRow(i: nat)
      requires Valid() && i < ROWS
      modifies this`words, this`taken, mem
      ensures Valid() && taken == OutsideRow(old(taken), i)
    {
      ClearedShows(words, taken, i);
      if mem[i] != null {
        var j := 0;
        while j < ROW_WORDS
          invariant 0 <= j <= ROW_WORDS && words == old(words) && taken == old(taken)
          invariant forall k :: 0 <= k < j ==> mem[i][k] == 0
          invariant forall i' :: 0 <= i' < ROWS && i' != i && mem[i'] != null ==> mem[i'][..] == old(mem[i'][..])
        {
          mem[i][j] := 0;
          j := j + 1;
        }
      }
      words, taken := Cleared(words, i), OutsideRow(taken, i);
      forall i': nat, j: nat | i' < ROWS && j < ROW_WORDS ensures Holds(i', j) {
        assert old(Holds(i', j));
        assert (i' * ROW_WORDS + j) / ROW_WORDS == i';
        if i' != i && mem[i'] != null { assert mem[i'][j] == mem[i'][..][j] == old(mem[i'][..][j]); }
      }
    }

    /** bankruptcy */
    method Bankruptcy()
      requires Valid()
      modifies this`words, this`taken, this`last, mem
      ensures Valid() && last == map[]
      ensures forall t :: t in taken <==> t in old(taken) && t >= size
    {
      var i := 0;
      while i < size / ROW_BITS
        invariant 0 <= i <= size / ROW_BITS && Valid()
        invariant forall t :: t in taken <==> t in old(taken) && t / ROW_BITS >= i
      {
        ClearRow(i);
        i := i + 1;
      }
      last := map[];
    }

    /** Whether n granules from start on are all free; None where the source panics, behind the bitmap. */
    method Free(start: nat, n: nat) returns (b: Option<bool>)
      requires Valid()
      ensures b == if !Fits(taken, start, n) then Some(false) else if n == 0 || start + n <= ALL_BITS then Some(true)
              else None
    {
      var i := 0;
      while i < n
        invariant 0 <= i <= n && Fits(taken, start, i) && (i > 0 ==> start + i <= ALL_BITS)
      {
        if start + i >= ALL_BITS {
          BehindIsFree(words, taken, start, n, i);
          return None;
        }
        var used := Get(start + i);
        if used { return Some(false); }
        i := i + 1;
      }
      return Some(true);
    }

    /** The search of alloc, with the bound as the source computes it. */
    method Search(n: nat, step: nat, from: nat) returns (r: Found)
      requires Valid()
      ensures step > 0 ==>
                match FirstFit(taken, n, from, End(size, n), step)
                case None => r == Nowhere
                case Some(s) => r == Here(s, n)
      ensures step == 0 && from == 0 ==> r == if Fits(taken, 0, n) then Here(0, n) else Forever
    {
      var start := from;
      while start <= End(size, n)
        invariant step == 0 ==> start == from
        invariant step > 0 ==>
                    FirstFit(taken, n, start, End(size, n), step) == FirstFit(taken, n, from, End(size, n), step)
        decreases End(size, n) - start
      {
        var empty := Free(start, n);
        if empty.None? { return Panic; }
        if empty.value { return At(start); }
        if step == 0 { return Forever; }
        start := start + step;
      }
      return Nowhere;
    }

    /** Nothing is in use that alloc looks at. */
    ghost predicate Clear()
      reads this
    {
      last == map[] && forall t :: t in taken ==> t >= size
    }

    /** The block is noted and the cursor of its alignment moves behind it. */
    method Place(s: nat, size0: nat, al: nat) returns (addr: nat)
      requires Valid() && size0 < TWO64 && 0 < al <= MAX_UNITS && Multiple(s, al) && s + Units(size0) <= ALL_BITS
      modifies this`mem, this`words, this`taken, this`last, mem
      ensures Valid() && addr == s * GRANULE && last == old(last)[al := s + RoundUp(Units(size0), al)]
      ensures forall i :: i in taken <==> i in old(taken) || s <= i < s + Units(size0)
      ensures forall k {:trigger mem[k]} :: 0 <= k < ROWS ==> mem[k] == old(mem)[k] || fresh(mem[k])
    {
      NextCursor(s, Units(size0), al);
      RoundUpBound(Units(size0), al);
      BlockExtent(s, if size0 == 0 then 1 else size0);
      var ok := NoteAlloc(s * GRANULE, if size0 == 0 then 1 else size0);
      last := last[al := s + RoundUp(Units(size0), al)];
      return s * GRANULE;
    }

    /** The search and what follows it, for an alignment that has not wrapped around to 0. */
    method AllocAligned(size0: nat, al: nat) returns (r: Option<nat>)
      requires Valid() && size0 < TWO64 && 0 < al <= MAX_UNITS
      modifies this`mem, this`words, this`taken, this`last, mem
      ensures Valid() && (r.None? ==> taken == old(taken) && last == old(last))
      ensures var n := Units(size0);
              match FirstFit(old(taken), n, Cursor(old(last), al), End(size, n), al)
              case Some(s) =>
                && r == (if s + n <= ALL_BITS then Some(s * GRANULE) else None)
                && (r.Some? ==> last == old(last)[al := s + RoundUp(n, al)])
                && (r.Some? ==> forall i :: i in taken <==> i in old(taken) || s <= i < s + n)
              case None =>
                && n <= size && r == Some(0) && last == map[al := RoundUp(n, al)]
                && (forall i :: i in taken <==> (i in old(taken) && i >= size) || 0 <= i < n)
      ensures forall k {:trigger mem[k]} :: 0 <= k < ROWS ==> mem[k] == old(mem)[k] || fresh(mem[k])
      decreases if Clear() then 0 else 1
    {
      var n := Units(size0);
      UnitsBound(size0);
      CursorMultiple(last, al);
      var s := Search(n, al, Cursor(last, al));
      EndIs(size, n);
      match s {
        case At(at) =>
          FirstFitIs(taken, n, Cursor(last, al), End(size, n), al, 0);
          var addr := Place(at, size0, al);
          return Some(addr);
        case Panic => return None;
        case Nowhere =>
          if n > size { WildFit(words, taken, n, Cursor(last, al), size, al); }
          assert Clear() ==> Fits(taken, 0, n);
          Bankruptcy();
          assert Fits(taken, 0, n);
          r := AllocAligned(size0, al);
      }
    }

    /** An alignment that has wrapped around to 0: the block at 0 is noted before the division by it, or never found. */
    method AllocUnaligned(size0: nat) returns (r: Granted)
      requires Valid() && size0 < TWO64
      modifies this`mem, this`words, this`taken, mem
      ensures Valid() && r == if Fits(old(taken), 0, Units(size0)) then Panics else Hangs
      ensures forall i :: i in taken <==>
                i in old(taken) || (r == Panics && Units(size0) <= ALL_BITS && 0 <= i < Units(size0))
      ensures forall k {:trigger mem[k]} :: 0 <= k < ROWS ==> mem[k] == old(mem)[k] || fresh(mem[k])
    {
      var s := Search(Units(size0), 0, 0);
      if s == Forever { return Hangs; }
      if s == Panic { return Panics; }
      BlockExtent(0, if size0 == 0 then 1 else size0);
      var ok := NoteAlloc(0, if size0 == 0 then 1 else size0);
      return Panics;
    }

    /** alloc, for every 64-bit size and alignment */
    method Alloc(size0: nat, align0: nat) returns (r: Granted)
      requires Valid() && size0 < TWO64 && align0 < TWO64
      modifies this`mem, this`words, this`taken, this`last, mem
      ensures Valid() && (r == Hangs ==> taken == old(taken)) && (!r.Block? ==> last == old(last))
      ensures align0 > TWO64 - GRANULE ==> r == if Fits(old(taken), 0, Units(size0)) then Panics else Hangs
      ensures align0 <= TWO64 - GRANULE ==>
                var n, al := Units(size0), Units(align0);
                && al > 0
                && match FirstFit(old(taken), n, Cursor(old(last), al), End(size, n), al)
                   case Some(s) =>
                     && r == (if s + n <= ALL_BITS then Block(s * GRANULE) else Panics)
                     && (r.Block? ==> last == old(last)[al := s + RoundUp(n, al)])
                     && forall i :: i in taken <==> i in old(taken) || (r.Block? && s <= i < s + n)
                   case None =>
                     && n <= size && r == Block(0) && last == map[al := RoundUp(n, al)]
                     && forall i :: i in taken <==> (i in old(taken) && i >= size) || 0 <= i < n
      ensures forall k {:trigger mem[k]} :: 0 <= k < ROWS ==> mem[k] == old(mem)[k] || fresh(mem[k])
    {
      var al := Units(align0);
      UnitsBound(align0);
      if al == 0 {
        r := AllocUnaligned(size0);
      } else {
        var a := AllocAligned(size0, al);
        r := if a.Some? then Block(a.value) else Panics;
      }
    }
  }

  datatype Found = At(s: nat) | Nowhere | Panic | Forever

  /** What alloc does: an address, a panic (behind the bitmap, or a division by zero), or a search without end. */
  datatype Granted = Block(addr: nat) | Panics | Hangs

  function Here(s: nat, n: nat): Found { if n == 0 || s + n <= ALL_BITS then At(s) else Panic }

  /** Granules that noteAlloc goes through, from the one of the address on. */
  function Extent(addr0: nat, size0: nat): nat { (Granules(addr0 + size0) - addr0 / GRANULE) % TWO64 }

  /** Units are 0 exactly for the sizes whose rounding wraps around. */
  lemma {:induction false} UnitsBound(n: nat)
    requires n < TWO64
    ensures Units(n) <= MAX_UNITS && (Units(n) == 0 <==> n > TWO64 - GRANULE)
  {
  }

  /** From the start of a granule, noting a block goes through its units, wrap-around or not. */
  lemma {:induction false} BlockExtent(s: nat, size0: nat)
    requires 0 < size0 < TWO64 && s <= ALL_BITS
    requires s + Units(size0) <= ALL_BITS || s == 0
    ensures Extent(s * GRANULE, size0) == Units(size0)
  {
    if size0 <= TWO64 - GRANULE {
      assert s * GRANULE + size0 + GRANULE - 1 < TWO64;
    } else {
      assert (s * GRANULE + size0 + GRANULE - 1) % TWO64 == s * GRANULE + (size0 + GRANULE - 1 - TWO64);
    }
  }

  /** size - n as an unsigned 64-bit number. */
  function End(size: nat, n: nat): nat { (size - n) % TWO64 }

  lemma {:induction false} EndIs(size: nat, n: nat)
    requires size <= ALL_BITS && n <= MAX_UNITS
    ensures End(size, n) == if n <= size then size - n else TWO64 + size - n
  {
  }

  lemma {:induction false} BehindIsFree(words: seq<nat>, taken: set<nat>, start: nat, n: nat, i: nat)
    requires Shows(words, taken) && i < n && Fits(taken, start, i) && start + i >= ALL_BITS
    ensures Fits(taken, start, n)
  {
  }

  /** A block larger than the memory is always found somewhere, because the bound has wrapped around. */
  lemma {:induction false} WildFit(words: seq<nat>, taken: set<nat>, n: nat, s: nat, size: nat, al: nat)
    requires Shows(words, taken) && size < n <= MAX_UNITS && 0 < al <= MAX_UNITS
    requires size <= ALL_BITS && (s <= MAX_CURSOR || s <= ALL_BITS + al)
    ensures FirstFit(taken, n, s, End(size, n), al).Some?
    decreases ALL_BITS - s
  {
    EndIs(size, n);
    if s < ALL_BITS && !Fits(taken, s, n) { WildFit(words, taken, n, s + al, size, al); }
  }

  /** The block lies inside the memory exactly if it is no larger than the memory. */
  lemma {:induction false} InsideIff(taken: set<nat>, n: nat, s: nat, size: nat, al: nat)
    requires al > 0 && size <= ALL_BITS && n <= MAX_UNITS && Multiple(s, al)
    ensures var r := FirstFit(taken, n, s, End(size, n), al); r.Some? ==> (r.value + n <= size <==> n <= size)
  {
    EndIs(size, n);
    FirstFitIs(taken, n, s, End(size, n), al, 0);
  }

  /** A request for 5000 granules of an empty memory of 4096 is granted. */
  method TooLarge() returns (r: Granted)
    ensures r == Block(0)
  {
    var m := new MemAlloc(4096 * GRANULE);
    assert Fits(m.taken, 0, 5000);
    EndIs(m.size, 5000);
    assert Units(5000 * GRANULE) == 5000 && Units(1) == 1;
    r := m.Alloc(5000 * GRANULE, 1);
  }

  lemma {:induction false} RoundUpBound(n: nat, al: nat)
    requires 0 < al <= MAX_UNITS && n <= ALL_BITS
    ensures RoundUp(n, al) + ALL_BITS <= MAX_CURSOR
  {
    var q := (n + al - 1) / al;
    assert q * al <= n + al - 1;
  }

  /** Granules of a size or an alignment, where 0 counts as 1. */
  function Units(n: nat): nat { Granules(if n == 0 then 1 else n) }

  function Cursor(last: map<nat, nat>, al: nat): nat { if al in last then last[al] else 0 }

  function RoundUp(n: nat, al: nat): nat
    requires al > 0
  {
    (n + al - 1) / al * al
  }

  /** The cursor moves to the first aligned place behind the block. */
  lemma {:induction false} CursorBehind(s: nat, n: nat, al: nat, t: nat)
    requires al > 0 && Multiple(s, al)
    ensures s + n <= s + RoundUp(n, al) < s + n + al
    ensures Multiple(t, al) && t >= s + n ==> t >= s + RoundUp(n, al)
  {
    NextCursor(s, n, al);
    RoundUpIs(n, al);
    if Multiple(t, al) && s + n <= t < s + RoundUp(n, al) { NoMultipleBetween(t, s + RoundUp(n, al), al); }
  }

  lemma {:induction false} RoundUpIs(n: nat, al: nat)
    requires al > 0
    ensures n <= RoundUp(n, al) < n + al
  {
    var q, r := (n + al - 1) / al, (n + al - 1) % al;
    assert n + al - 1 == q * al + r;
  }

  /** The granules of a block are those that its bytes lie in, and no more. */
  lemma {:induction false} BlockBytes(s: nat, size0: nat, g: nat)
    requires 0 < size0 <= TWO64 - GRANULE
    ensures s <= g < s + Units(size0) <==>
            exists b: nat :: s * GRANULE <= b < s * GRANULE + size0 && b / GRANULE == g
  {
    var n := Units(size0);
    assert (n - 1) * GRANULE < size0 <= n * GRANULE;
    if s <= g < s + n {
      var b := g * GRANULE;
      assert s * GRANULE <= b < s * GRANULE + size0 && b / GRANULE == g;
    }
  }

  lemma {:induction false} CursorMultiple(last: map<nat, nat>, al: nat)
    requires forall a :: a in last ==> Multiple(last[a], a)
    ensures Multiple(Cursor(last, al), al)
  {
    assert Times(0, al) == 0;
  }

  lemma {:induction false} NextCursor(s: nat, n: nat, al: nat)
    requires al > 0 && Multiple(s, al)
    ensures Multiple(s + RoundUp(n, al), al)
  {
    assert RoundUp(n, al) == Times((n + al - 1) / al, al);
    MultiplePlus(s, al, (n + al - 1) / al);
  }

  /** A block aligned in granules is aligned in bytes, for every power of two. */
  lemma {:induction false} AlignedAddress(s: nat, j: nat)
    requires j < 64 && Multiple(s, Units(Pow2(j)))
    ensures Multiple(s * GRANULE, Pow2(j))
  {
    if j <= 6 {
      SmallPowers();
      var c := GRANULE / Pow2(j);
      SmallMultiple(s, c, Pow2(j));
    } else {
      var m := Pow2(j - 6);
      PowLarge(j);
      PowMono(j - 6, 57);
      TopPower();
      WholeUnits(m);
      var k: nat :| s == Times(k, m);
      TimesGranule(k, m);
    }
  }

  lemma {:induction false} PowMono(i: nat, j: nat)
    requires i <= j
    ensures Pow2(i) <= Pow2(j)
  {
    if i < j { PowMono(i, j - 1); }
  }

  lemma {:induction false} WholeUnits(m: nat)
    requires 0 < m <= 0x200_0000_0000_0000
    ensures Units(64 * m) == m
  {
  }

  lemma {:induction false} TopPower()
    ensures Pow2(57) == 0x200_0000_0000_0000
  {
    SmallPowers();
    PowLarge(9);
    PowLarge(15);
    PowLarge(21);
    PowLarge(27);
    PowLarge(33);
    PowLarge(39);
    PowLarge(45);
    PowLarge(51);
    PowLarge(57);
  }

  lemma {:induction false} SmallPowers()
    ensures Pow2(0) == 1 && Pow2(1) == 2 && Pow2(2) == 4 && Pow2(3) == 8
    ensures Pow2(4) == 16 && Pow2(5) == 32 && Pow2(6) == 64
  {
  }

  lemma {:induction false} SmallMultiple(s: nat, c: nat, p: nat)
    requires c * p == GRANULE
    ensures Multiple(s * GRANULE, p)
  {
    assert s * (c * p) == s * c * p;
    assert Times(s * c, p) == s * GRANULE;
  }

  lemma {:induction false} TimesGranule(k: nat, m: nat)
    ensures Times(k, m) * GRANULE == Times(k, 64 * m)
  {
  }

  lemma {:induction false} PowLarge(j: nat)
    requires j >= 6
    ensures Pow2(j) == 64 * Pow2(j - 6)
  {
    if j == 6 {
      SmallPowers();
    } else {
      PowLarge(j - 1);
    }
  }
}
