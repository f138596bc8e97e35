/**
 The coverage filter (executor/cover_filter.h): a set of program counters, without their low three
 bits, in a three-level table of 32 MB that is shared between processes.
 */
module CoverFilter {
  import opened Bits
  import opened Basics
  import opened Counting

  const REGION: nat := 0x4000_0000
  const CHUNK: nat := 0x10_0000
  const ROW: nat := 0x4000               // bytes of a row: CHUNK / 64
  const MEM: nat := 0x200_0000
  const HEADER: nat := 8224              // four 8-byte regions, 4 * 1024 two-byte row numbers
  const L2_BYTES: nat := 0x200_0000 - 8224
  const MAX_ROWS: nat := 2048

  /** pc | (kL1Size - 1) */
  function RegionOf(pc: nat): nat { pc / REGION * REGION + (REGION - 1) }

  function ChunkOf(pc: nat): nat { pc / CHUNK }
  function Offset(pc: nat): nat { pc % CHUNK / 64 }
  function Shift(pc: nat): nat { pc / 8 % 8 }

  /** Chunk, offset and shift spell the program counter without its low bits. */
  lemma {:induction false} KeyUnique(pc: nat, pc': nat)
    ensures pc / 8 == pc' / 8 <==> ChunkOf(pc) == ChunkOf(pc') && Offset(pc) == Offset(pc') && Shift(pc) == Shift(pc')
  {
    KeyParts(pc);
    KeyParts(pc');
  }

  lemma {:induction false} KeyParts(pc: nat)
    ensures pc / 8 == ChunkOf(pc) * 0x2_0000 + Offset(pc) * 8 + Shift(pc)
    ensures Offset(pc) < ROW && Shift(pc) < 8
  {
    Eighths(ChunkOf(pc), pc % CHUNK);
    Eighth(pc % CHUNK);
  }

  lemma {:induction false} Eighths(c: nat, m: nat)
    ensures (c * CHUNK + m) / 8 == c * 0x2_0000 + m / 8
    ensures (c * CHUNK + m) / 8 % 8 == m / 8 % 8
  {
    assert (c * CHUNK + m) / 8 == c * 0x2_0000 + m / 8;
  }

  lemma {:induction false} Eighth(m: nat)
    ensures m / 8 == m / 64 * 8 + m / 8 % 8
  {
    assert m / 8 / 8 == m / 64;
  }

  /** Region and index inside the region of the chunk of pc. */
  lemma {:induction false} ChunkPlace(pc: nat)
    ensures RegionOf(pc) == ChunkOf(pc) / 1024 * REGION + (REGION - 1)
    ensures pc % REGION / CHUNK == ChunkOf(pc) % 1024
    ensures Offset(pc) < ROW
  {
    var m := pc % REGION;
    assert pc == pc / REGION * REGION + m;
    assert ChunkOf(pc) == pc / REGION * 1024 + m / CHUNK;
  }

  // ----- the bound -----

  /** Where byte off of row k lies in the table. */
  function Address(k: nat, off: nat): nat
    requires k > 0
  {
    HEADER + (k - 1) * ROW + off
  }

  /** The check that follows the allocation of row k. */
  predicate Accepted(k: nat)
    requires k > 0
  {
    Address(k, 0) + 1 <= MEM
  }

  /** The check accepts 2048 rows, but only 2047 rows lie wholly inside the table. */
  lemma {:induction false} RowBound(k: nat)
    requires k > 0
    ensures Accepted(k) <==> k <= MAX_ROWS
    ensures (forall off: nat :: off < ROW ==> Address(k, off) < MEM) <==> k < MAX_ROWS
    ensures forall off: nat :: off < ROW && Accepted(k) ==> (Address(k, off) < MEM <==> k < MAX_ROWS || off < 8160)
  {
    if k >= MAX_ROWS { assert Address(k, ROW - 1) >= MEM; }
  }

  // ----- the table -----

  function FindSlot(regions: seq<nat>, reg: nat, r: nat): Option<nat>
    decreases |regions| - r
  {
    if r >= |regions| then None
    else if regions[r] == reg then Some(r)
    else FindSlot(regions, reg, r + 1)
  }

  lemma {:induction false} FindSlotIs(regions: seq<nat>, reg: nat, from: nat)
    ensures var s := FindSlot(regions, reg, from);
            && (s.Some? ==> from <= s.value < |regions| && regions[s.value] == reg)
            && (s.Some? ==> forall i :: from <= i < s.value ==> regions[i] != reg)
            && (s.None? ==> forall i :: from <= i < |regions| ==> regions[i] != reg)
    decreases |regions| - from
  {
    if from < |regions| && regions[from] != reg { FindSlotIs(regions, reg, from + 1); }
  }

  predicate Shape(regions: seq<nat>, l1: seq<nat>) { |regions| == 4 && |l1| == 4096 }

  /** The row of a chunk, 0 if it has none. */
  function RowOf(regions: seq<nat>, l1: seq<nat>, c: nat): nat
    requires Shape(regions, l1)
  {
    match FindSlot(regions, c / 1024 * REGION + (REGION - 1), 0)
    case None => 0
    case Some(r) => if r < 4 then l1[r * 1024 + c % 1024] else 0
  }

  /** Regions are distinct; every row number in use belongs to one chunk, and home says to which. */
  ghost predicate Rows(regions: seq<nat>, l1: seq<nat>, home: seq<nat>) {
    && Shape(regions, l1)
    && Apart(regions)
    && (forall r, i {:trigger l1[Cell(r, i)]} :: 0 <= r < 4 && 0 <= i < 1024 && regions[r] == 0 ==> l1[Cell(r, i)] == 0)
    && (forall c: nat {:trigger RowOf(regions, l1, c)} :: RowOf(regions, l1, c) != 0 ==>
          RowOf(regions, l1, c) <= |home| && home[RowOf(regions, l1, c) - 1] == c)
    && (forall k :: 0 <= k < |home| ==> RowOf(regions, l1, home[k]) == k + 1)
  }

  function Cell(r: nat, i: nat): nat { r * 1024 + i }

  function Byte(k: nat, off: nat): nat
    requires k > 0
  {
    (k - 1) * ROW + off
  }

  /** The bit of pc in the row of its chunk. */
  predicate Shown(l2: seq<nat>, k: nat, pc: nat) {
    k > 0 && Byte(k, Offset(pc)) < |l2| && Bit(l2[Byte(k, Offset(pc))], Shift(pc))
  }

  ghost predicate Shows(regions: seq<nat>, l1: seq<nat>, l2: seq<nat>, home: seq<nat>, words: set<nat>) {
    && Rows(regions, l1, home) && |l2| == L2_BYTES
    && (forall b :: |home| * ROW <= b < |l2| ==> l2[b] == 0)
    && (forall pc: nat {:trigger Shown(l2, RowOf(regions, l1, ChunkOf(pc)), pc)} ::
          Shown(l2, RowOf(regions, l1, ChunkOf(pc)), pc) <==> pc / 8 in words)
  }

  /** The same, to be looked into only where that is asked for. */
  ghost predicate Showing(regions: seq<nat>, l1: seq<nat>, l2: seq<nat>, home: seq<nat>, words: set<nat>) {
    forall u: bool {:trigger Open(u)} :: Open(u) ==> Shows(regions, l1, l2, home, words)
  }

  lemma {:induction false} SetOne(regions: seq<nat>, l1: seq<nat>, l2: seq<nat>, home: seq<nat>, words: set<nat>,
                                  pc: nat)
    requires Shape(regions, l1) && Showing(regions, l1, l2, home, words)
    requires var k := RowOf(regions, l1, ChunkOf(pc)); k > 0 && Byte(k, Offset(pc)) < |l2|
    ensures var b := Byte(RowOf(regions, l1, ChunkOf(pc)), Offset(pc));
            Showing(regions, l1, l2[b := WithBit(l2[b], Shift(pc), true)], home, words + {pc / 8})
  {
    assert Open(true);
    var k := RowOf(regions, l1, ChunkOf(pc));
    var b := Byte(k, Offset(pc));
    var l2' := l2[b := WithBit(l2[b], Shift(pc), true)];
    forall p: nat {:trigger Shown(l2', RowOf(regions, l1, ChunkOf(p)), p)}
      ensures Shown(l2', RowOf(regions, l1, ChunkOf(p)), p) <==> p / 8 in words + {pc / 8}
    {
      SetOneAt(regions, l1, l2, home, pc, p);
      assert Shown(l2, RowOf(regions, l1, ChunkOf(p)), p) <==> p / 8 in words;
    }
  }

  lemma {:induction false} SetOneAt(regions: seq<nat>, l1: seq<nat>, l2: seq<nat>, home: seq<nat>, pc: nat, p: nat)
    requires Rows(regions, l1, home)
    requires var k := RowOf(regions, l1, ChunkOf(pc)); k > 0 && Byte(k, Offset(pc)) < |l2|
    ensures var b := Byte(RowOf(regions, l1, ChunkOf(pc)), Offset(pc));
            var k' := RowOf(regions, l1, ChunkOf(p));
            Shown(l2[b := WithBit(l2[b], Shift(pc), true)], k', p) <==> Shown(l2, k', p) || p / 8 == pc / 8
  {
    var k, k' := RowOf(regions, l1, ChunkOf(pc)), RowOf(regions, l1, ChunkOf(p));
    var b := Byte(k, Offset(pc));
    KeyUnique(pc, p);
    WithBitIs(l2[b], Shift(pc), true, Shift(p));
    if k' > 0 {
      assert home[k - 1] == ChunkOf(pc) && home[k' - 1] == ChunkOf(p);
      BytesApart(k, Offset(pc), k', Offset(p));
    }
  }

  lemma {:induction false} ByteBound(k: nat, off: nat)
    requires 0 < k <= MAX_ROWS && off < ROW
    ensures Byte(k, off) >= L2_BYTES <==> k == MAX_ROWS && off >= 8160
  {
  }

  lemma {:induction false} BytesApart(k: nat, off: nat, k': nat, off': nat)
    requires k > 0 && k' > 0 && off < ROW && off' < ROW
    ensures Byte(k, off) == Byte(k', off') <==> k == k' && off == off'
  {
  }

  // ----- new regions and rows -----

  /** All region slots are taken, none by reg. */
  predicate Full(regions: seq<nat>, reg: nat) {
    forall r :: 0 <= r < |regions| ==> regions[r] != 0 && regions[r] != reg
  }

  /** The regions that have a slot. */
  function Taken(regions: seq<nat>): set<nat> { set r | 0 <= r < |regions| && regions[r] != 0 :: regions[r] }

  ghost predicate Apart(regions: seq<nat>) {
    forall r, s :: 0 <= r < s < |regions| && regions[r] != 0 ==> regions[r] != regions[s]
  }

  lemma {:induction false} TakenLast(regions: seq<nat>, rest: seq<nat>, x: nat)
    requires regions == rest + [x]
    ensures Taken(regions) == Taken(rest) + (if x != 0 then {x} else {})
  {
    forall y ensures y in Taken(regions) <==> y in Taken(rest) + (if x != 0 then {x} else {}) {
      if y in Taken(rest) {
        var r :| 0 <= r < |rest| && rest[r] != 0 && rest[r] == y;
        assert regions[r] == y;
      }
      if y == x { assert regions[|rest|] == x; }
    }
  }

  lemma {:induction false} TakenSize(regions: seq<nat>)
    requires Apart(regions)
    ensures |Taken(regions)| <= |regions|
    ensures |Taken(regions)| == |regions| <==> 0 !in regions
  {
    if |regions| == 0 {
      assert Taken(regions) == {};
    } else {
      var n := |regions| - 1;
      var rest, x := regions[..n], regions[n];
      assert regions == rest + [x];
      TakenSize(rest);
      TakenLast(regions, rest, x);
      assert x != 0 ==> x !in Taken(rest);
    }
  }

  lemma {:induction false} FullIff(regions: seq<nat>, reg: nat)
    requires Apart(regions) && reg != 0
    ensures Full(regions, reg) <==> |Taken(regions)| == |regions| && reg !in Taken(regions)
  {
    TakenSize(regions);
  }

  lemma {:induction false} TakenAfter(regions: seq<nat>, r: nat, reg: nat)
    requires r < |regions| && regions[r] == 0 && reg != 0
    ensures Taken(regions[r := reg]) == Taken(regions) + {reg}
  {
    var after := regions[r := reg];
    forall x ensures x in Taken(after) <==> x in Taken(regions) + {reg} {
      if x in Taken(regions) {
        var i :| 0 <= i < |regions| && regions[i] != 0 && regions[i] == x;
        assert after[i] == x;
      }
      if x == reg { assert after[r] == x; }
    }
  }

  lemma {:induction false} SlotAfter(regions: seq<nat>, r: nat, reg: nat, x: nat)
    requires |regions| == 4 && r < 4 && regions[r] == 0 && reg != 0 && x != 0
    requires forall i :: 0 <= i < 4 ==> regions[i] != reg
    ensures FindSlot(regions[r := reg], x, 0) == if x == reg then Some(r) else FindSlot(regions, x, 0)
  {
    var after := regions[r := reg];
    FindSlotIs(after, x, 0);
    FindSlotIs(regions, x, 0);
    var a, b := FindSlot(after, x, 0), FindSlot(regions, x, 0);
    assert after[r] == reg;
    if a.Some? && x != reg { assert regions[a.value] == x; }
    if b.Some? { assert after[b.value] == x; }
  }

  lemma {:induction false} SlotTaken(regions: seq<nat>, r: nat)
    requires r < |regions| && regions[r] != 0
    ensures regions[r] in Taken(regions) && Taken(regions) + {regions[r]} == Taken(regions)
  {
  }

  /** Taking a free region slot gives no chunk a row. */
  lemma {:induction false} RegionAdded(regions: seq<nat>, l1: seq<nat>, home: seq<nat>, r: nat, reg: nat, c: nat)
    requires Rows(regions, l1, home) && r < 4 && regions[r] == 0 && reg != 0
    requires forall i :: 0 <= i < 4 ==> regions[i] != reg
    ensures RowOf(regions[r := reg], l1, c) == RowOf(regions, l1, c)
  {
    var x := c / 1024 * REGION + (REGION - 1);
    SlotAfter(regions, r, reg, x);
    FindSlotIs(regions, x, 0);
    assert l1[Cell(r, c % 1024)] == 0;
  }

  lemma {:induction false} RowsStay(regions: seq<nat>, l1: seq<nat>, l2: seq<nat>, home: seq<nat>, words: set<nat>,
                                    r: nat, reg: nat)
    requires Shape(regions, l1) && Showing(regions, l1, l2, home, words) && r < 4 && regions[r] == 0 && reg != 0
    requires forall i :: 0 <= i < 4 ==> regions[i] != reg
    ensures forall c: nat :: RowOf(regions[r := reg], l1, c) == RowOf(regions, l1, c)
  {
    assert Open(true);
    forall c: nat ensures RowOf(regions[r := reg], l1, c) == RowOf(regions, l1, c) {
      RegionAdded(regions, l1, home, r, reg, c);
    }
  }

  lemma {:induction false} RegionKeeps(regions: seq<nat>, l1: seq<nat>, l2: seq<nat>, home: seq<nat>, words: set<nat>,
                                       r: nat, reg: nat)
    requires Shape(regions, l1) && Showing(regions, l1, l2, home, words) && r < 4 && regions[r] == 0 && reg != 0
    requires forall i :: 0 <= i < 4 ==> regions[i] != reg
    ensures Showing(regions[r := reg], l1, l2, home, words)
  {
    assert Open(true);
    var regions' := regions[r := reg];
    forall c: nat {:trigger RowOf(regions', l1, c)} ensures RowOf(regions', l1, c) == RowOf(regions, l1, c) {
      RegionAdded(regions, l1, home, r, reg, c);
    }
    forall pc: nat {:trigger Shown(l2, RowOf(regions', l1, ChunkOf(pc)), pc)}
      ensures Shown(l2, RowOf(regions', l1, ChunkOf(pc)), pc) <==> pc / 8 in words
    {
      assert Shown(l2, RowOf(regions, l1, ChunkOf(pc)), pc) <==> pc / 8 in words;
    }
  }

  /** A new row number in the cell of chunk c is the row of that chunk and of no other. */
  lemma {:induction false} RowAdded(regions: seq<nat>, l1: seq<nat>, r: nat, c: nat, k: nat, c': nat)
    requires Shape(regions, l1) && r < 4 && FindSlot(regions, c / 1024 * REGION + (REGION - 1), 0) == Some(r)
    ensures RowOf(regions, l1[Cell(r, c % 1024) := k], c') == if c' == c then k else RowOf(regions, l1, c')
  {
    FindSlotIs(regions, c / 1024 * REGION + (REGION - 1), 0);
    FindSlotIs(regions, c' / 1024 * REGION + (REGION - 1), 0);
  }

  lemma {:induction false} RowKeeps(regions: seq<nat>, l1: seq<nat>, l2: seq<nat>, home: seq<nat>, words: set<nat>,
                                    r: nat, c: nat)
    requires Shape(regions, l1) && Showing(regions, l1, l2, home, words) && r < 4 && |home| < MAX_ROWS
    requires FindSlot(regions, c / 1024 * REGION + (REGION - 1), 0) == Some(r) && RowOf(regions, l1, c) == 0
    ensures Showing(regions, l1[Cell(r, c % 1024) := |home| + 1], l2, home + [c], words)
  {
    assert Open(true);
    var k := |home| + 1;
    var l1' := l1[Cell(r, c % 1024) := k];
    FindSlotIs(regions, c / 1024 * REGION + (REGION - 1), 0);
    forall c': nat {:trigger RowOf(regions, l1', c')}
      ensures RowOf(regions, l1', c') == if c' == c then k else RowOf(regions, l1, c')
    {
      RowAdded(regions, l1, r, c, k, c');
    }
    forall pc: nat {:trigger Shown(l2, RowOf(regions, l1', ChunkOf(pc)), pc)}
      ensures Shown(l2, RowOf(regions, l1', ChunkOf(pc)), pc) <==> pc / 8 in words
    {
      assert Shown(l2, RowOf(regions, l1, ChunkOf(pc)), pc) <==> pc / 8 in words;
      if ChunkOf(pc) == c { ZeroHasNoBits(Shift(pc)); }
    }
    RowsAdded(regions, l1, l1', home, r, c);
  }

  lemma {:induction false} RowMade(regions: seq<nat>, l1: seq<nat>, l2: seq<nat>, home: seq<nat>, words: set<nat>,
                                   r: nat, c: nat)
    requires Shape(regions, l1) && Showing(regions, l1, l2, home, words) && r < 4 && |home| < MAX_ROWS
    requires FindSlot(regions, c / 1024 * REGION + (REGION - 1), 0) == Some(r) && RowOf(regions, l1, c) == 0
    ensures Showing(regions, l1[Cell(r, c % 1024) := |home| + 1], l2, home + [c], words)
    ensures RowOf(regions, l1[Cell(r, c % 1024) := |home| + 1], c) == |home| + 1
  {
    RowKeeps(regions, l1, l2, home, words, r, c);
    RowAdded(regions, l1, r, c, |home| + 1, c);
  }

  lemma {:induction false} RowsAdded(regions: seq<nat>, l1: seq<nat>, l1': seq<nat>, home: seq<nat>, r: nat, c: nat)
    requires Rows(regions, l1, home) && r < 4 && RowOf(regions, l1, c) == 0
    requires FindSlot(regions, c / 1024 * REGION + (REGION - 1), 0) == Some(r)
    requires l1' == l1[Cell(r, c % 1024) := |home| + 1]
    requires forall c': nat {:trigger RowOf(regions, l1', c')} ::
               RowOf(regions, l1', c') == if c' == c then |home| + 1 else RowOf(regions, l1, c')
    ensures Rows(regions, l1', home + [c])
  {
    ZeroRegions(regions, l1, l1', home, r, c);
    forall k | 0 <= k < |home + [c]| ensures RowOf(regions, l1', (home + [c])[k]) == k + 1 {
      if k < |home| { assert RowOf(regions, l1, home[k]) == k + 1; }
    }
    forall c': nat {:trigger RowOf(regions, l1', c')} | RowOf(regions, l1', c') != 0
      ensures RowOf(regions, l1', c') <= |home| + 1 && (home + [c])[RowOf(regions, l1', c') - 1] == c'
    {
      HomeOf(regions, l1, home, c, c', RowOf(regions, l1', c'));
    }
  }

  /** Row k of the chunk d is its own in the longer list too. */
  lemma {:induction false} HomeOf(regions: seq<nat>, l1: seq<nat>, home: seq<nat>, c: nat, d: nat, k: nat)
    requires Rows(regions, l1, home) && k != 0 && k == if d == c then |home| + 1 else RowOf(regions, l1, d)
    ensures k <= |home| + 1 && (home + [c])[k - 1] == d
  {
  }

  lemma {:induction false} ZeroRegions(regions: seq<nat>, l1: seq<nat>, l1': seq<nat>, home: seq<nat>, r: nat, c: nat)
    requires Rows(regions, l1, home) && r < 4
    requires FindSlot(regions, c / 1024 * REGION + (REGION - 1), 0) == Some(r)
    requires l1' == l1[Cell(r, c % 1024) := |home| + 1]
    ensures forall s, i {:trigger l1'[Cell(s, i)]} ::
              0 <= s < 4 && 0 <= i < 1024 && regions[s] == 0 ==> l1'[Cell(s, i)] == 0
  {
    FindSlotIs(regions, c / 1024 * REGION + (REGION - 1), 0);
    forall s, i {:trigger l1'[Cell(s, i)]} | 0 <= s < 4 && 0 <= i < 1024 && regions[s] == 0
        ensures l1'[Cell(s, i)] == 0 {
      assert l1[Cell(s, i)] == 0;
      CellsApart(s, i, r, c % 1024);
    }
  }

  lemma {:induction false} CellsApart(r: nat, i: nat, s: nat, j: nat)
    requires i < 1024 && j < 1024
    ensures Cell(r, i) == Cell(s, j) <==> r == s && i == j
  {
  }

  // ----- the code -----

  datatype Outcome = Ok | Overflow | OutOfBounds
  datatype Answer = Yes | No | Outside

  class Filter {
    const regions: array<nat>
    const l1: array<nat>
    const l2: array<nat>
    var alloc: nat
    ghost var home: seq<nat>
    ghost var words: set<nat>

    ghost predicate Valid()
      reads this, regions, l1, l2
    {
      && Shape(regions[..], l1[..]) && l2.Length == L2_BYTES
      && Showing(regions[..], l1[..], l2[..], home, words) && alloc == |home| <= MAX_ROWS
      && regions != l1 && l1 != l2 && regions != l2
    }

    constructor ()
      ensures Valid() && words == {} && home == [] && Taken(regions[..]) == {}
      ensures Holds(this, []) && fresh(regions) && fresh(l1) && fresh(l2)
    {
      regions := new nat[4](_ => 0);
      l1 := new nat[4096](_ => 0);
      l2 := new nat[L2_BYTES](_ => 0);
      alloc, home, words := 0, [], {};
      new;
      NothingShown(regions[..], l1[..], l2[..]);
    }

    /** FindRegion without adding. */
    method FindRegion(reg: nat) returns (r: Option<nat>)
      requires Valid()
      ensures r == FindSlot(regions[..], reg, 0)
    {
      var i := 0;
      while i < 4
        invariant 0 <= i <= 4 && FindSlot(regions[..], reg, i) == FindSlot(regions[..], reg, 0)
      {
        if regions[i] == reg { return Some(i); }
        i := i + 1;
      }
      return None;
    }

    /** FindRegion with adding; None on overflow. */
    method AddRegion(reg: nat) returns (r: Option<nat>)
      requires Valid() && reg > 0
      modifies regions
      ensures r.None? <==> |old(Taken(regions[..]))| == 4 && reg !in old(Taken(regions[..]))
      ensures r.None? ==> regions[..] == old(regions[..])
      ensures r.Some? ==> Taken(regions[..]) == old(Taken(regions[..])) + {reg}
      ensures r.Some? ==> Valid() && FindSlot(regions[..], reg, 0) == r && r.value < 4
      ensures forall c: nat :: RowOf(regions[..], l1[..], c) == RowOf(old(regions[..]), l1[..], c)
    {
      r := FindRegion(reg);
      FindSlotIs(regions[..], reg, 0);
      RegionFull(reg);
      if r.Some? { SlotTaken(regions[..], r.value); return; }
      var i := 0;
      while i < 4
        invariant 0 <= i <= 4 && regions[..] == old(regions[..])
        invariant forall j :: 0 <= j < i ==> regions[j] != 0
      {
        if regions[i] == 0 {
          ghost var was := regions[..];
          RegionKeeps(was, l1[..], l2[..], home, words, i, reg);
          SlotAfter(was, i, reg, reg);
          TakenAfter(was, i, reg);
          RowsStay(was, l1[..], l2[..], home, words, i, reg);
          regions[i] := reg;
          assert regions[..] == was[i := reg];
          return Some(i);
        }
        i := i + 1;
      }
      return None;
    }

    lemma {:induction false} RegionFull(reg: nat)
      requires Valid() && reg != 0
      ensures Full(regions[..], reg) <==> |Taken(regions[..])| == 4 && reg !in Taken(regions[..])
    {
      RegionsApart(regions[..], l1[..], l2[..], home, words);
      FullIff(regions[..], reg);
    }

    /** Contains */
    method Contains(pc: nat) returns (a: Answer)
      requires Valid()
      ensures a == Outside <==> Behind(pc)
      ensures a != Outside ==> (a == Yes <==> pc / 8 in words)
    {
      var r := FindRegion(RegionOf(pc));
      FindSlotIs(regions[..], RegionOf(pc), 0);
      ChunkPlace(pc);
      ShownIff(regions[..], l1[..], l2[..], home, words, pc);
      ChunkKnown(regions[..], l1[..], l2[..], home, words, ChunkOf(pc));
      if r.None? { return No; }
      var c := pc % REGION / CHUNK;
      var k := l1[Cell(r.value, c)];
      if k == 0 { return No; }
      ByteBound(k, Offset(pc));
      LastPlace(pc, k);
      if Byte(k, Offset(pc)) >= l2.Length { return Outside; }
      return if Bit(l2[Byte(k, Offset(pc))], Shift(pc)) then Yes else No;
    }

    /** A new row for chunk c, whose cell is in region slot r; None on overflow. */
    method NewRow(r: nat, c: nat) returns (k: Option<nat>)
      requires Valid() && r < 4 && FindSlot(regions[..], c / 1024 * REGION + (REGION - 1), 0) == Some(r)
      requires RowOf(regions[..], l1[..], c) == 0
      modifies this`alloc, this`home, l1
      ensures k.None? <==> |old(home)| == MAX_ROWS
      ensures k.Some? ==> Valid() && k.value == RowOf(regions[..], l1[..], c) == |home| && home == old(home) + [c]
    {
      ghost var rows, cell := l1[..], Cell(r, c % 1024);
      alloc := alloc + 1;
      l1[Cell(r, c % 1024)] := alloc;
      assert l1[..] == rows[cell := alloc];
      RowBound(alloc);
      if !Accepted(alloc) { return None; }
      RowMade(regions[..], rows, l2[..], home, words, r, c);
      home := home + [c];
      return Some(alloc);
    }

    /** Row k holds the chunk of pc. */
    ghost predicate Placed(k: nat, pc: nat)
      reads this, regions, l1
    {
      && Shape(regions[..], l1[..]) && k == Row(pc) && 0 < k <= |home| && home[k - 1] == ChunkOf(pc)
    }

    ghost function HomeWith(c: nat): seq<nat>
      reads this`home
    {
      if c in home then home else home + [c]
    }

    ghost predicate NoRoom(pc: nat)
      reads this, regions
    {
      || (|Taken(regions[..])| == 4 && RegionOf(pc) !in Taken(regions[..]))
      || (ChunkOf(pc) !in home && |home| == MAX_ROWS)
    }

    /** FindByte with adding: the row of the chunk of pc, made if need be; None on overflow. */
    method AddRow(pc: nat) returns (k: Option<nat>)
      requires Valid()
      modifies this`alloc, this`home, regions, l1
      ensures k.None? <==> old(NoRoom(pc))
      ensures k.Some? ==> Valid() && Placed(k.value, pc) && home == old(HomeWith(ChunkOf(pc)))
      ensures k.Some? ==> Taken(regions[..]) == old(Taken(regions[..])) + {RegionOf(pc)}
    {
      var r := AddRegion(RegionOf(pc));
      if r.None? { return None; }
      ChunkPlace(pc);
      k := RowIn(r.value, pc % REGION / CHUNK, pc);
    }

    method RowIn(r: nat, i: nat, pc: nat) returns (k: Option<nat>)
      requires Valid() && r < 4 && i == ChunkOf(pc) % 1024
      requires FindSlot(regions[..], ChunkOf(pc) / 1024 * REGION + (REGION - 1), 0) == Some(r)
      modifies this`alloc, this`home, l1
      ensures k.None? <==> ChunkOf(pc) !in old(home) && |old(home)| == MAX_ROWS
      ensures k.Some? ==> Valid() && Placed(k.value, pc) && home == old(HomeWith(ChunkOf(pc)))
    {
      ChunkKnown(regions[..], l1[..], l2[..], home, words, ChunkOf(pc));
      var l2i := l1[Cell(r, i)];
      assert l2i == Row(pc);
      if l2i != 0 { return Some(l2i); }
      k := NewRow(r, pc / CHUNK);
    }

    /** byte |= bit */
    method SetBit(k: nat, b: nat, pc: nat)
      requires Valid() && k > 0 && k == Row(pc) && b == Byte(k, Offset(pc)) < l2.Length
      modifies this`words, l2
      ensures Valid() && words == old(words) + {pc / 8}
    {
      ghost var bytes := l2[..];
      SetOne(regions[..], l1[..], bytes, home, words, pc);
      l2[b] := WithBit(l2[b], Shift(pc), true);
      assert l2[..] == bytes[b := WithBit(bytes[b], Shift(pc), true)];
      words := words + {pc / 8};
    }

    /** The byte of pc lies behind the table: the last row, from offset 8160 on. */
    ghost predicate Behind(pc: nat)
      reads this`home
    {
      |home| == MAX_ROWS && home[MAX_ROWS - 1] == ChunkOf(pc) && Offset(pc) >= 8160
    }

    /** Insert */
    method Insert(pc: nat) returns (o: Outcome)
      requires Valid()
      modifies this, regions, l1, l2
      ensures o == Overflow <==> old(NoRoom(pc))
      ensures o != Overflow ==> Taken(regions[..]) == old(Taken(regions[..])) + {RegionOf(pc)}
      ensures o != Overflow ==> home == old(HomeWith(ChunkOf(pc))) && (o == OutOfBounds <==> Behind(pc))
      ensures o == Ok ==> Valid() && words == old(words) + {pc / 8}
    {
      var k := AddRow(pc);
      if k.None? { return Overflow; }
      var b := Byte(k.value, Offset(pc));
      ByteBound(k.value, Offset(pc));
      LastPlace(pc, k.value);
      if b >= l2.Length { return OutOfBounds; }
      SetBit(k.value, b, pc);
      return Ok;
    }

    lemma {:induction false} LastPlace(pc: nat, k: nat)
      requires Valid() && Placed(k, pc)
      ensures |home| == MAX_ROWS && home[MAX_ROWS - 1] == ChunkOf(pc) <==> k == MAX_ROWS
    {
      assert Open(true);
      if |home| == MAX_ROWS { assert RowOf(regions[..], l1[..], home[MAX_ROWS - 1]) == MAX_ROWS; }
    }

    ghost function Row(pc: nat): nat
      requires Shape(regions[..], l1[..])
      reads regions, l1
    {
      RowOf(regions[..], l1[..], ChunkOf(pc))
    }
  }

  lemma {:induction false} ShownIff(regions: seq<nat>, l1: seq<nat>, l2: seq<nat>, home: seq<nat>, words: set<nat>,
                                    pc: nat)
    requires Shape(regions, l1) && Showing(regions, l1, l2, home, words)
    ensures Shown(l2, RowOf(regions, l1, ChunkOf(pc)), pc) <==> pc / 8 in words
  {
    assert Open(true);
  }

  lemma {:induction false} RegionsApart(regions: seq<nat>, l1: seq<nat>, l2: seq<nat>, home: seq<nat>, words: set<nat>)
    requires Showing(regions, l1, l2, home, words)
    ensures Apart(regions) && Rows(regions, l1, home)
  {
    assert Open(true);
  }

  /** A chunk has a row exactly if it has been entered. */
  lemma {:induction false} ChunkKnown(regions: seq<nat>, l1: seq<nat>, l2: seq<nat>, home: seq<nat>, words: set<nat>,
                                      c: nat)
    requires Shape(regions, l1) && Showing(regions, l1, l2, home, words)
    ensures var k := RowOf(regions, l1, c);
            (k != 0 <==> c in home) && (k != 0 ==> k <= |home| && home[k - 1] == c)
  {
    assert Open(true);
    if c in home {
      var k :| 0 <= k < |home| && home[k] == c;
      assert RowOf(regions, l1, home[k]) == k + 1;
    }
  }

  lemma {:induction false} NothingShown(regions: seq<nat>, l1: seq<nat>, l2: seq<nat>)
    requires |regions| == 4 && |l1| == 4096 && |l2| == L2_BYTES
    requires forall i :: 0 <= i < 4 ==> regions[i] == 0
    requires forall i :: 0 <= i < 4096 ==> l1[i] == 0
    requires forall i :: 0 <= i < |l2| ==> l2[i] == 0
    ensures Showing(regions, l1, l2, [], {})
  {
    forall c: nat {:trigger RowOf(regions, l1, c)} ensures RowOf(regions, l1, c) == 0 {
      FindSlotIs(regions, c / 1024 * REGION + (REGION - 1), 0);
    }
  }

  // ----- sequences of inserts -----

  function RegionsOf(pcs: seq<nat>): set<nat> { set pc | pc in pcs :: RegionOf(pc) }
  function ChunksOf(pcs: seq<nat>): set<nat> { set pc | pc in pcs :: ChunkOf(pc) }
  function WordOf(pc: nat): nat { pc / 8 }
  function WordsOf(pcs: seq<nat>): set<nat> { set pc | pc in pcs :: WordOf(pc) }

  /** The chunks of pcs in the order in which they get their rows. */
  function Homes(pcs: seq<nat>): seq<nat> {
    if |pcs| == 0 then []
    else
      var h, c := Homes(pcs[..|pcs| - 1]), ChunkOf(pcs[|pcs| - 1]);
      if c in h then h else h + [c]
  }

  lemma {:induction false} HomesAre(pcs: seq<nat>)
    ensures Distinct(Homes(pcs)) && Members(Homes(pcs)) == ChunksOf(pcs) && |Homes(pcs)| == |ChunksOf(pcs)|
  {
    if |pcs| == 0 {
      assert Members(Homes(pcs)) == ChunksOf(pcs);
    } else {
      var rest, c := pcs[..|pcs| - 1], ChunkOf(pcs[|pcs| - 1]);
      HomesAre(rest);
      assert pcs == rest + [pcs[|pcs| - 1]];
      assert ChunksOf(pcs) == ChunksOf(rest) + {c};
      assert c in Homes(rest) <==> c in Members(Homes(rest));
    }
    DistinctSize(Homes(pcs));
  }

  /** Four regions and 2048 chunks at most. */
  predicate Room(pcs: seq<nat>) { |RegionsOf(pcs)| <= 4 && |Homes(pcs)| <= MAX_ROWS }

  /** No program counter of pcs falls into the part of row 2048 that lies behind the table. */
  predicate Inside(pcs: seq<nat>) {
    |Homes(pcs)| == MAX_ROWS ==>
      forall pc :: pc in pcs && ChunkOf(pc) == Homes(pcs)[MAX_ROWS - 1] ==> Offset(pc) < 8160
  }

  lemma {:induction false} SubsetOf(a: set<nat>, b: set<nat>)
    requires a <= b
    ensures |a| <= |b|
  {
    SubsetSize(a, b);
  }

  lemma {:induction false} Grown(a: seq<nat>, pc: nat, b: seq<nat>)
    requires b == a + [pc]
    ensures RegionsOf(b) == RegionsOf(a) + {RegionOf(pc)} && WordsOf(b) == WordsOf(a) + {pc / 8}
    ensures Homes(b) == if ChunkOf(pc) in Homes(a) then Homes(a) else Homes(a) + [ChunkOf(pc)]
  {
    assert b[..|b| - 1] == a;
  }

  lemma {:induction false} PrefixNext(pcs: seq<nat>, k: nat)
    requires k < |pcs|
    ensures pcs[..k + 1] == pcs[..k] + [pcs[k]]
  {
  }

  /** What does not fit at first does not fit later. */
  lemma {:induction false} FitsBefore(pcs: seq<nat>, k: nat)
    requires k <= |pcs| && Room(pcs) && Inside(pcs)
    ensures Room(pcs[..k]) && Inside(pcs[..k])
    decreases |pcs| - k
  {
    if k < |pcs| {
      FitsBefore(pcs, k + 1);
      PrefixNext(pcs, k);
      Grown(pcs[..k], pcs[k], pcs[..k + 1]);
      SubsetOf(RegionsOf(pcs[..k]), RegionsOf(pcs[..k + 1]));
      InsideBefore(pcs[..k], pcs[k], pcs[..k + 1]);
    } else {
      assert pcs[..k] == pcs;
    }
  }

  lemma {:induction false} InsideBefore(a: seq<nat>, pc: nat, b: seq<nat>)
    requires b == a + [pc] && Inside(b) && |Homes(b)| <= MAX_ROWS
    requires Homes(b) == if ChunkOf(pc) in Homes(a) then Homes(a) else Homes(a) + [ChunkOf(pc)]
    ensures |Homes(a)| <= MAX_ROWS && Inside(a)
  {
    if |Homes(a)| == MAX_ROWS {
      assert Homes(b) == Homes(a);
      forall x | x in a && ChunkOf(x) == Homes(a)[MAX_ROWS - 1] ensures Offset(x) < 8160 { assert x in b; }
    }
  }

  /** One more insert fits exactly if there is room and its byte is not behind the table. */
  lemma {:induction false} FitsNext(a: seq<nat>, pc: nat, b: seq<nat>)
    requires b == a + [pc] && Inside(a)
    requires Homes(b) == if ChunkOf(pc) in Homes(a) then Homes(a) else Homes(a) + [ChunkOf(pc)]
    ensures Inside(b) <==> !(|Homes(b)| == MAX_ROWS && Homes(b)[MAX_ROWS - 1] == ChunkOf(pc) && Offset(pc) >= 8160)
  {
    HomesAre(a);
    if |Homes(b)| == MAX_ROWS {
      var last := Homes(b)[MAX_ROWS - 1];
      assert pc in b;
      forall x | x in a && ChunkOf(x) == last ensures Offset(x) < 8160 {
        assert ChunkOf(x) in ChunksOf(a);
        assert ChunkOf(x) in Members(Homes(a));
      }
    }
  }

  /** The filter holds exactly the given program counters. */
  ghost predicate Holds(f: Filter, pcs: seq<nat>)
    reads f, f.regions, f.l1, f.l2
  {
    && f.Valid() && f.words == WordsOf(pcs) && f.home == Homes(pcs) && Taken(f.regions[..]) == RegionsOf(pcs)
    && Room(pcs) && Inside(pcs)
  }

  /** One more insert. */
  method InsertNext(f: Filter, pc: nat, ghost a: seq<nat>, ghost b: seq<nat>) returns (o: Outcome)
    requires Holds(f, a) && b == a + [pc]
    modifies f, f.regions, f.l1, f.l2
    ensures o == Ok ==> Holds(f, b)
    ensures o == Overflow ==> !Room(b)
    ensures o == OutOfBounds ==> Room(b) && !Inside(b)
  {
    Grown(a, pc, b);
    FitsNext(a, pc, b);
    o := f.Insert(pc);
  }

  /** Inserts in a row, up to the first that fails; k of them succeed. */
  method InsertAll(f: Filter, pcs: seq<nat>) returns (o: Outcome, ghost k: nat)
    requires Holds(f, [])
    modifies f, f.regions, f.l1, f.l2
    ensures o == Ok <==> Room(pcs) && Inside(pcs)
    ensures o == Ok ==> Holds(f, pcs)
    ensures o != Ok ==> k < |pcs| && Room(pcs[..k]) && Inside(pcs[..k])
    ensures o == Overflow ==> !Room(pcs[..k + 1])
    ensures o == OutOfBounds ==> Room(pcs[..k + 1]) && !Inside(pcs[..k + 1])
  {
    var i := 0;
    assert pcs[..0] == [];
    while i < |pcs|
      invariant 0 <= i <= |pcs| && Holds(f, pcs[..i])
    {
      PrefixNext(pcs, i);
      o := InsertNext(f, pcs[i], pcs[..i], pcs[..i + 1]);
      if o != Ok {
        if Room(pcs) && Inside(pcs) { FitsBefore(pcs, i + 1); }
        return o, i;
      }
      i := i + 1;
    }
    assert pcs[..i] == pcs;
    return Ok, i;
  }

  /** A filter with the given program counters, asked for another one. */
  method Lookup(pcs: seq<nat>, pc: nat) returns (o: Outcome, a: Answer)
    ensures o == Ok <==> Room(pcs) && Inside(pcs)
    ensures |RegionsOf(pcs)| <= 4 && |ChunksOf(pcs)| < MAX_ROWS ==> o == Ok && a != Outside
    ensures o == Ok && a != Outside ==> (a == Yes <==> exists q :: q in pcs && q / 8 == pc / 8)
  {
    var f := new Filter();
    ghost var k;
    HomesAre(pcs);
    o, k := InsertAll(f, pcs);
    a := No;
    if o == Ok { a := f.Contains(pc); }
    assert pc / 8 in WordsOf(pcs) <==> exists q :: q in pcs && WordOf(q) == pc / 8;
  }

  // ----- a run that leaves the table -----

  function Spread(n: nat): seq<nat> { seq(n, i requires 0 <= i < n => i * CHUNK) }

  lemma {:induction false} SpreadHomes(n: nat)
    ensures |Homes(Spread(n))| == n && forall i :: 0 <= i < n ==> Homes(Spread(n))[i] == i
  {
    if n > 0 {
      SpreadHomes(n - 1);
      assert Spread(n)[..n - 1] == Spread(n - 1);
      assert ChunkOf((n - 1) * CHUNK) == n - 1;
      assert n - 1 !in Homes(Spread(n - 1));
    }
  }

  /** The first byte behind the table: chunk 2047, which gets row 2048, at offset 8160. */
  const BEYOND: nat := 2047 * CHUNK + 8160 * 64

  lemma {:induction false} SpreadRegions(pcs: seq<nat>)
    requires forall pc :: pc in pcs ==> pc < 2 * REGION
    ensures |RegionsOf(pcs)| <= 2
  {
    forall pc | pc in pcs ensures RegionOf(pc) in {REGION - 1, 2 * REGION - 1} {
      assert pc / REGION == 0 || pc / REGION == 1;
    }
    SubsetOf(RegionsOf(pcs), {REGION - 1, 2 * REGION - 1});
  }

  lemma {:induction false} BeyondIsBehind()
    ensures var pcs := Spread(2047) + [BEYOND];
            && Room(pcs[..2047]) && Inside(pcs[..2047]) && Room(pcs) && !Inside(pcs) && |ChunksOf(pcs)| == 2048
  {
    var a := Spread(2047);
    var pcs := a + [BEYOND];
    SpreadHomes(2047);
    assert pcs[..2047] == a;
    assert ChunkOf(BEYOND) == 2047 && Offset(BEYOND) == 8160;
    assert 2047 !in Homes(a);
    assert Homes(pcs) == Homes(a) + [2047];
    assert BEYOND in pcs;
    forall pc | pc in a ensures pc < 2 * REGION { }
    SpreadRegions(a);
    SpreadRegions(pcs);
    HomesAre(pcs);
  }

  /** 2048 chunks in two regions, and the last insert touches a byte behind the table. */
  method OutsideTheTable() returns (o: Outcome)
    ensures o == OutOfBounds
  {
    var pcs := Spread(2047) + [BEYOND];
    BeyondIsBehind();
    var f := new Filter();
    ghost var k;
    o, k := InsertAll(f, pcs);
    if k < 2047 { PrefixFits(pcs, k); }
    assert pcs[..2048] == pcs;
  }

  lemma {:induction false} PrefixFits(pcs: seq<nat>, k: nat)
    requires |pcs| == 2048 && k < 2047 && Room(pcs[..2047]) && Inside(pcs[..2047])
    ensures Room(pcs[..k + 1]) && Inside(pcs[..k + 1])
  {
    FitsBefore(pcs[..2047], k + 1);
    assert pcs[..2047][..k + 1] == pcs[..k + 1];
  }
}
