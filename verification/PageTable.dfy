/**
 Nested page tables of the amd64 guest (executor/common_kvm_amd64_syzos.h): a four-level radix table
 that is built on demand from a shared bump allocator, and the walker that must agree with it.
 Memory is one array of 64-bit words; a table is a frame of 512 of them.
 */
module PageTable {
  import opened Bits
  import opened Basics

  const PAGE: nat := 0x1000
  const HEAP_FRAME: nat := 0x1000        // X86_SYZOS_ADDR_UNUSED >> 12
  const UNUSED: nat := 0x100_0000
  const PAGES: nat := 0x10_0000_0000     // page numbers of a 48-bit address
  const TABLE_FLAGS: nat := 7            // PRESENT | RW | USER

  // ----- addresses -----

  /** The page number that the four table indices of an address spell. */
  function PageOf(gpa: nat): (q: nat)
    ensures q < PAGES
  {
    gpa / PAGE % PAGES
  }

  /** The high part of page q that selects a table of depth k; depth 0 is the root. */
  function Prefix(q: nat, k: nat): nat
    requires k <= 4
  {
    if k == 0 then q / 0x10_0000_0000
    else if k == 1 then q / 0x800_0000
    else if k == 2 then q / 0x4_0000
    else if k == 3 then q / 0x200
    else q
  }

  /** The index of page q in its table of depth k. */
  function Index(q: nat, k: nat): (i: nat)
    requires k <= 3
    ensures i < 512
  {
    Prefix(q, k + 1) % 512
  }

  lemma {:induction false} PrefixStep(q: nat, k: nat)
    requires k <= 3
    ensures Prefix(q, k + 1) == Prefix(q, k) * 512 + Index(q, k)
  {
  }

  // The shifts and masks of the source select the same indices, for every address.

  lemma {:induction false} TopIndex(gpa: nat)
    ensures Index(PageOf(gpa), 0) == gpa / 0x80_0000_0000 % 512
  {
    var n := gpa / 0x1000;
    assert gpa / 0x80_0000_0000 == n / 0x800_0000;
    TopDigit(n, n / 0x10_0000_0000, n % 0x10_0000_0000);
  }

  lemma {:induction false} TopDigit(n: nat, a: nat, b: nat)
    requires n == 0x10_0000_0000 * a + b
    ensures n / 0x800_0000 % 512 == b / 0x800_0000 % 512
  {
    assert n / 0x800_0000 == 512 * a + b / 0x800_0000;
  }

  lemma {:induction false} UpperIndex(gpa: nat)
    ensures Index(PageOf(gpa), 1) == gpa / 0x4000_0000 % 512
  {
    var n := gpa / 0x1000;
    assert gpa / 0x4000_0000 == n / 0x4_0000;
    UpperDigit(n, n / 0x10_0000_0000, n % 0x10_0000_0000);
  }

  lemma {:induction false} UpperDigit(n: nat, a: nat, b: nat)
    requires n == 0x10_0000_0000 * a + b
    ensures n / 0x4_0000 % 512 == b / 0x4_0000 % 512
  {
    assert n / 0x4_0000 == 512 * (512 * a) + b / 0x4_0000;
  }

  lemma {:induction false} LowerIndex(gpa: nat)
    ensures Index(PageOf(gpa), 2) == gpa / 0x20_0000 % 512
  {
    var n := gpa / 0x1000;
    assert gpa / 0x20_0000 == n / 0x200;
    LowerDigit(n, n / 0x10_0000_0000, n % 0x10_0000_0000);
  }

  lemma {:induction false} LowerDigit(n: nat, a: nat, b: nat)
    requires n == 0x10_0000_0000 * a + b
    ensures n / 0x200 % 512 == b / 0x200 % 512
  {
    assert n / 0x200 == 512 * (0x4_0000 * a) + b / 0x200;
  }

  lemma {:induction false} BottomIndex(gpa: nat)
    ensures Index(PageOf(gpa), 3) == gpa / 0x1000 % 512
  {
    var n := gpa / 0x1000;
    var a, b := n / 0x10_0000_0000, n % 0x10_0000_0000;
    assert n == 512 * (0x800_0000 * a) + b;
  }

  // ----- words -----

  predicate Present(w: nat) { w % 2 == 1 }

  function Frame(w: nat): nat { w / PAGE }

  /** page | flags */
  function Entry(page: nat, flags: nat): nat { BitOr(page, flags) }

  lemma {:induction false} OrAbove(c: nat, b: nat, k: nat)
    requires b < Shl(1, k)
    ensures BitOr(Shl(c, k), b) == Shl(c, k) + b
  {
    if k > 0 {
      OrAbove(c, b / 2, k - 1);
      OrStep(b % 2, b / 2, Shl(c, k - 1));
    }
  }

  lemma {:induction false} ShlPage(c: nat)
    ensures Shl(c, 12) == c * PAGE
  {
    ShlTwice(c, 0);
    ShlTwice(c, 2);
    ShlTwice(c, 4);
    ShlTwice(c, 6);
    ShlTwice(c, 8);
    ShlTwice(c, 10);
  }

  /** An entry keeps its frame and its flags apart. */
  lemma {:induction false} EntryParts(page: nat, flags: nat)
    requires page % PAGE == 0 && flags < PAGE
    ensures Entry(page, flags) == page + flags
    ensures Frame(Entry(page, flags)) == page / PAGE
    ensures Present(Entry(page, flags)) <==> Present(flags)
  {
    var c := page / PAGE;
    ShlPage(c);
    ShlPage(1);
    OrAbove(c, flags, 12);
  }

  // ----- tables -----

  function Slot(f: nat, i: nat): nat { f * 512 + i }

  /** The place of a table: under which root, how deep, and for which pages. */
  datatype Node = Node(root: nat, depth: nat, prefix: nat)

  type Owners = map<nat, Node>

  /** The depth-3 table for page q below table f of depth k. */
  function Last(s: seq<nat>, f: nat, q: nat, k: nat): Option<nat>
    requires k <= 3
    decreases 3 - k
  {
    if k == 3 then Some(f)
    else
      var j := Slot(f, Index(q, k));
      if j >= |s| || !Present(s[j]) then None else Last(s, Frame(s[j]), q, k + 1)
  }

  /** The entry that page q has in table e of depth 3. */
  function Leaf(s: seq<nat>, e: nat, q: nat): Option<nat> {
    var j := Slot(e, Index(q, 3));
    if j >= |s| || !Present(s[j]) then None else Some(s[j])
  }

  /** The translation of page q under a root. */
  function Walk(s: seq<nat>, root: nat, q: nat): Option<nat> {
    match Last(s, root, q, 0)
    case None => None
    case Some(e) => Leaf(s, e, q)
  }

  /** Every present entry of an upper table leads to the table that belongs there. */
  ghost predicate Tables(s: seq<nat>, owner: Owners) {
    && (forall f :: f in owner ==> Slot(f, 512) <= |s| && owner[f].depth <= 3)
    && (forall f, i {:trigger Slot(f, i)} ::
          f in owner && owner[f].depth < 3 && 0 <= i < 512 && Slot(f, i) < |s| && Present(s[Slot(f, i)]) ==>
          Child(owner, f, i, Frame(s[Slot(f, i)])))
  }

  predicate Child(owner: Owners, f: nat, i: nat, g: nat)
    requires f in owner
  {
    g in owner && owner[g] == Node(owner[f].root, owner[f].depth + 1, owner[f].prefix * 512 + i)
  }

  predicate IsRoot(owner: Owners, r: nat) { r in owner && owner[r] == Node(r, 0, 0) }

  /** f is the table of depth k through which page q is looked up under root r. */
  predicate On(owner: Owners, f: nat, r: nat, q: nat, k: nat)
    requires k <= 3
  {
    f in owner && owner[f] == Node(r, k, Prefix(q, k))
  }

  lemma {:induction false} LastOn(s: seq<nat>, owner: Owners, f: nat, r: nat, q: nat, k: nat)
    requires k <= 3 && Tables(s, owner) && On(owner, f, r, q, k)
    ensures var e := Last(s, f, q, k); e.Some? ==> On(owner, e.value, r, q, 3)
    decreases 3 - k
  {
    if k < 3 {
      var j := Slot(f, Index(q, k));
      if j < |s| && Present(s[j]) {
        PrefixStep(q, k);
        assert Child(owner, f, Index(q, k), Frame(s[j]));
        LastOn(s, owner, Frame(s[j]), r, q, k + 1);
      }
    }
  }

  // ----- writes -----

  /** The two memories agree on every table. */
  ghost predicate AgreeOn(s: seq<nat>, s': seq<nat>, owner: Owners) {
    |s| == |s'| && forall f, i {:trigger Slot(f, i)} ::
      f in owner && 0 <= i < 512 && Slot(f, i) < |s| ==> s'[Slot(f, i)] == s[Slot(f, i)]
  }

  lemma {:induction false} LastAgrees(s: seq<nat>, s': seq<nat>, owner: Owners, f: nat, r: nat, q: nat, k: nat)
    requires k <= 3 && Tables(s, owner) && AgreeOn(s, s', owner) && On(owner, f, r, q, k)
    ensures Last(s', f, q, k) == Last(s, f, q, k)
    decreases 3 - k
  {
    if k < 3 {
      var j := Slot(f, Index(q, k));
      if j < |s| && Present(s[j]) {
        PrefixStep(q, k);
        assert Child(owner, f, Index(q, k), Frame(s[j]));
        LastAgrees(s, s', owner, Frame(s[j]), r, q, k + 1);
      }
    }
  }

  /** Writes outside the tables, by whomever, change no translation. */
  lemma {:induction false} ForeignWrites(s: seq<nat>, s': seq<nat>, owner: Owners, r: nat, q: nat)
    requires Tables(s, owner) && AgreeOn(s, s', owner) && IsRoot(owner, r) && q < PAGES
    ensures Tables(s', owner)
    ensures Walk(s', r, q) == Walk(s, r, q)
  {
    LastAgrees(s, s', owner, r, r, q, 0);
    LastOn(s, owner, r, r, q, 0);
  }

  /** A new table g, still empty, is hung into slot i of table f. */
  ghost predicate Installs(s: seq<nat>, s': seq<nat>, owner: Owners, f: nat, i: nat, g: nat, w: nat) {
    && Tables(s, owner) && f in owner && owner[f].depth < 3 && i < 512
    && g !in owner && Slot(g, 512) <= |s| && (forall j :: 0 <= j < 512 ==> s[Slot(g, j)] == 0)
    && Slot(f, i) < |s| && !Present(s[Slot(f, i)]) && Frame(w) == g
    && s' == s[Slot(f, i) := w]
  }

  function WithTable(owner: Owners, f: nat, i: nat, g: nat): Owners
    requires f in owner
  {
    owner[g := Node(owner[f].root, owner[f].depth + 1, owner[f].prefix * 512 + i)]
  }

  lemma {:induction false} SlotApart(f: nat, i: nat, f': nat, i': nat)
    requires i < 512 && i' < 512
    ensures Slot(f, i) == Slot(f', i') <==> f == f' && i == i'
  {
  }

  lemma {:induction false} InstallKeepsTables(s: seq<nat>, s': seq<nat>, owner: Owners, f: nat, i: nat, g: nat, w: nat)
    requires Installs(s, s', owner, f, i, g, w)
    ensures Tables(s', WithTable(owner, f, i, g))
  {
    var o := WithTable(owner, f, i, g);
    forall f', i' {:trigger Slot(f', i')} | f' in o && o[f'].depth < 3 && 0 <= i' < 512 && Slot(f', i') < |s'|
        && Present(s'[Slot(f', i')])
      ensures Child(o, f', i', Frame(s'[Slot(f', i')]))
    {
      SlotApart(f, i, f', i');
      if f' != g && (f' != f || i' != i) {
        assert Child(owner, f', i', Frame(s[Slot(f', i')]));
      }
    }
  }

  /** Below an empty table nothing is mapped. */
  lemma {:induction false} EmptyTable(s: seq<nat>, g: nat, q: nat, k: nat)
    requires k <= 3 && Slot(g, 512) <= |s| && forall j :: 0 <= j < 512 ==> s[Slot(g, j)] == 0
    ensures k < 3 ==> Last(s, g, q, k) == None
    ensures k == 3 ==> Leaf(s, g, q) == None
  {
    assert s[Slot(g, Index(q, k))] == 0;
  }

  function LeafBelow(s: seq<nat>, f: nat, q: nat, k: nat): Option<nat>
    requires k <= 3
  {
    match Last(s, f, q, k)
    case None => None
    case Some(e) => Leaf(s, e, q)
  }

  lemma {:induction false} InstallKeepsBelow(s: seq<nat>, s': seq<nat>, owner: Owners, f: nat, i: nat, g: nat, w: nat,
                                             f': nat, r: nat, q: nat, k: nat)
    requires k <= 3 && Installs(s, s', owner, f, i, g, w) && On(owner, f', r, q, k)
    ensures LeafBelow(s', f', q, k) == LeafBelow(s, f', q, k)
    decreases 3 - k
  {
    var i' := Index(q, k);
    SlotApart(f, i, f', i');
    if k < 3 {
      if f' == f && i' == i {
        forall j | 0 <= j < 512 ensures s'[Slot(g, j)] == 0 {
          SlotApart(f, i, g, j);
        }
        EmptyTable(s', g, q, k + 1);
      } else if Slot(f', i') < |s| && Present(s[Slot(f', i')]) {
        PrefixStep(q, k);
        assert Child(owner, f', i', Frame(s[Slot(f', i')]));
        InstallKeepsBelow(s, s', owner, f, i, g, w, Frame(s[Slot(f', i')]), r, q, k + 1);
      }
    }
  }

  /** Hanging in an empty table changes no translation. */
  lemma {:induction false} InstallKeepsWalks(s: seq<nat>, s': seq<nat>, owner: Owners, f: nat, i: nat, g: nat, w: nat,
                                             r: nat, q: nat)
    requires Installs(s, s', owner, f, i, g, w) && IsRoot(owner, r) && q < PAGES
    ensures Walk(s', r, q) == Walk(s, r, q)
  {
    InstallKeepsBelow(s, s', owner, f, i, g, w, r, r, q, 0);
  }

  lemma {:induction false} LeafKeepsLast(s: seq<nat>, s': seq<nat>, owner: Owners, f: nat, i: nat,
                                         f': nat, r: nat, q: nat, k: nat)
    requires k <= 3 && Tables(s, owner) && On(owner, f', r, q, k)
    requires f in owner && owner[f].depth == 3 && i < 512 && Slot(f, i) < |s| == |s'|
    requires forall j :: 0 <= j < |s| && j != Slot(f, i) ==> s'[j] == s[j]
    ensures Last(s', f', q, k) == Last(s, f', q, k)
    decreases 3 - k
  {
    if k < 3 {
      var i' := Index(q, k);
      SlotApart(f, i, f', i');
      if Slot(f', i') < |s| && Present(s[Slot(f', i')]) {
        PrefixStep(q, k);
        assert Child(owner, f', i', Frame(s[Slot(f', i')]));
        LeafKeepsLast(s, s', owner, f, i, Frame(s[Slot(f', i')]), r, q, k + 1);
      }
    }
  }

  /** Writing the entry of page p under root t changes the translation of that page only. */
  lemma {:induction false} LeafWrite(s: seq<nat>, s': seq<nat>, owner: Owners, f: nat, w: nat, t: nat, p: nat, r: nat,
                                     q: nat)
    requires Tables(s, owner) && IsRoot(owner, r) && IsRoot(owner, t) && q < PAGES && p < PAGES
    requires Last(s, t, p, 0) == Some(f) && Slot(f, Index(p, 3)) < |s|
    requires s' == s[Slot(f, Index(p, 3)) := w] && Present(w)
    ensures Tables(s', owner)
    ensures Walk(s', r, q) == if r == t && q == p then Some(w) else Walk(s, r, q)
  {
    var i := Index(p, 3);
    LastOn(s, owner, t, t, p, 0);
    LeafKeepsTables(s, s', owner, f, i);
    LeafKeepsLast(s, s', owner, f, i, r, r, q, 0);
    LastOn(s, owner, r, r, q, 0);
    PrefixStep(q, 3);
    PrefixStep(p, 3);
    match Last(s, r, q, 0)
    case None =>
    case Some(e) => SlotApart(f, i, e, Index(q, 3));
  }

  lemma {:induction false} LeafKeepsTables(s: seq<nat>, s': seq<nat>, owner: Owners, f: nat, i: nat)
    requires Tables(s, owner) && f in owner && owner[f].depth == 3 && i < 512 && Slot(f, i) < |s| == |s'|
    requires forall j :: 0 <= j < |s| && j != Slot(f, i) ==> s'[j] == s[j]
    ensures Tables(s', owner)
  {
    forall f', i' {:trigger Slot(f', i')} | f' in owner && owner[f'].depth < 3 && 0 <= i' < 512 && Slot(f', i') < |s'|
        && Present(s'[Slot(f', i')])
      ensures Child(owner, f', i', Frame(s'[Slot(f', i')]))
    {
      SlotApart(f, i, f', i');
    }
  }

  // ----- the guest -----

  datatype Region = Region(gpa: nat, pages: nat, flags: nat)

  /** get_unused_memory_size */
  function UnusedSize(regions: seq<Region>): (n: nat)
    ensures n % PAGE == 0
  {
    if |regions| == 0 then 0
    else if regions[0].gpa == UNUSED then regions[0].pages * PAGE
    else UnusedSize(regions[1..])
  }

  /** Tables of these owners translate as before. */
  ghost predicate SameWalks(s: seq<nat>, s': seq<nat>, owner: Owners) {
    forall r, q {:trigger Walk(s', r, q)} :: IsRoot(owner, r) && 0 <= q < PAGES ==> Walk(s', r, q) == Walk(s, r, q)
  }

  /** The same, except that page p of root t, if unmapped, now has entry w. */
  ghost predicate FirstWins(s: seq<nat>, s': seq<nat>, owner: Owners, t: nat, p: nat, w: nat) {
    forall r, q {:trigger Walk(s', r, q)} :: IsRoot(owner, r) && 0 <= q < PAGES ==>
      Walk(s', r, q) == if r == t && q == p && Walk(s, t, p).None? then Some(w) else Walk(s, r, q)
  }

  /** Upper entries that are present stay as they are. */
  ghost predicate KeepsEntries(s: seq<nat>, s': seq<nat>, owner: Owners) {
    |s'| == |s| && forall f, i {:trigger Slot(f, i)} ::
      f in owner && 0 <= i < 512 && Slot(f, i) < |s| && Present(s[Slot(f, i)]) ==> s'[Slot(f, i)] == s[Slot(f, i)]
  }

  predicate Extends(owner: Owners, owner': Owners) {
    && (forall f :: f in owner ==> f in owner' && owner'[f] == owner[f])
    && (forall f :: f in owner' && f !in owner ==> owner'[f].depth > 0)
  }

  /** Roots lie below the heap, all other tables in its used part. */
  predicate Placed(owner: Owners, limit: nat) {
    forall f :: f in owner ==> f < limit && (f < HEAP_FRAME ==> owner[f] == Node(f, 0, 0) && f % 8 == 4)
  }

  class Guest {
    const regions: seq<Region>
    const mem: array<nat>
    var allocOffset: nat
    var totalSize: nat
    ghost var owner: Owners

    ghost predicate Valid()
      reads this, mem
    {
      && allocOffset % PAGE == 0
      && (totalSize == 0 || totalSize == UnusedSize(regions))
      && (UNUSED + UnusedSize(regions)) / 8 <= mem.Length
      && Tables(mem[..], owner)
      && Placed(owner, HEAP_FRAME + allocOffset / PAGE)
    }

    /** A guest that has just started: its memory is zero and no page of the heap is taken. */
    constructor (regions: seq<Region>)
      ensures Valid() && this.regions == regions && fresh(mem) && owner == map[] && allocOffset == 0
    {
      this.regions := regions;
      mem := new nat[(UNUSED + UnusedSize(regions)) / 8](_ => 0);
      allocOffset, totalSize, owner := 0, 0, map[];
    }

    /** get_unused_memory_size */
    method UnusedMemory() returns (n: nat)
      ensures n == UnusedSize(regions)
    {
      var i := 0;
      while i < |regions|
        invariant 0 <= i <= |regions|
        invariant UnusedSize(regions) == UnusedSize(regions[i..])
      {
        if regions[i].gpa == UNUSED { return regions[i].pages * PAGE; }
        i := i + 1;
      }
      return 0;
    }

    /** guest_memset of one page with zeros */
    method ZeroPage(f: nat)
      requires Slot(f, 512) <= mem.Length
      modifies mem
      ensures forall i :: 0 <= i < 512 ==> mem[Slot(f, i)] == 0
      ensures forall j :: 0 <= j < mem.Length && !(Slot(f, 0) <= j < Slot(f, 512)) ==> mem[j] == old(mem[j])
    {
      for i := 0 to 512
        invariant forall j :: Slot(f, 0) <= j < Slot(f, i) ==> mem[j] == 0
        invariant forall j :: 0 <= j < mem.Length && !(Slot(f, 0) <= j < Slot(f, 512)) ==> mem[j] == old(mem[j])
      {
        mem[Slot(f, i)] := 0;
      }
    }

    /** guest_alloc_page: the next page of the heap, zeroed; None where the guest exits. */
    method AllocPage() returns (page: Option<nat>)
      requires Valid()
      modifies this`allocOffset, this`totalSize, mem
      ensures Valid()
      ensures allocOffset == old(allocOffset) + PAGE && totalSize == UnusedSize(regions)
      ensures page == if old(allocOffset) < UnusedSize(regions) then Some(UNUSED + old(allocOffset)) else None
      ensures page.None? ==> mem[..] == old(mem[..])
      ensures page.Some? ==>
                var f := page.value / PAGE;
                && page.value % PAGE == 0 && f !in owner && Slot(f, 512) <= mem.Length
                && HEAP_FRAME <= f < HEAP_FRAME + allocOffset / PAGE
                && (forall i :: 0 <= i < 512 ==> mem[Slot(f, i)] == 0)
                && (forall j :: 0 <= j < mem.Length && !(Slot(f, 0) <= j < Slot(f, 512)) ==> mem[j] == old(mem[j]))
    {
      if totalSize == 0 {
        totalSize := UnusedMemory();
      }
      var offset := allocOffset;
      allocOffset := allocOffset + PAGE;
      if offset >= totalSize { return None; }
      var ptr := UNUSED + offset;
      ghost var s := mem[..];
      ZeroPage(ptr / PAGE);
      HeapWrite(s, mem[..], owner, ptr / PAGE);
      return Some(ptr);
    }

    /** A new table behind the absent slot i of table f. */
    method AddTable(f: nat, i: nat) returns (g: Option<nat>)
      requires Valid() && f in owner && owner[f].depth < 3 && i < 512 && !Present(mem[Slot(f, i)])
      modifies this, mem
      ensures Valid() && Extends(old(owner), owner)
      ensures SameWalks(old(mem[..]), mem[..], old(owner)) && KeepsEntries(old(mem[..]), mem[..], old(owner))
      ensures g.Some? ==> Child(owner, f, i, g.value) && Leads(mem[..], f, i, g.value)
      ensures g.None? ==> UnusedSize(regions) < allocOffset
    {
      ghost var s0 := mem[..];
      var page := AllocPage();
      ghost var s1 := mem[..];
      AllocKeeps(s0, s1, owner, page);
      if page.None? { return None; }
      ghost var h := page.value / PAGE;
      EntryParts(page.value, TABLE_FLAGS);
      var w := Entry(page.value, TABLE_FLAGS);
      assert s1[Slot(f, i)] == s0[Slot(f, i)];
      mem[Slot(f, i)] := w;
      InstallStep(s0, s1, mem[..], owner, f, i, h, w);
      owner := WithTable(owner, f, i, h);
      return Some(Frame(w));
    }

    /** One level of l2_map_page: the table behind slot i of table f, allocated if it is not there. */
    method EnsureTable(f: nat, i: nat) returns (g: Option<nat>)
      requires Valid() && f in owner && owner[f].depth < 3 && i < 512
      modifies this, mem
      ensures Valid() && Extends(old(owner), owner)
      ensures SameWalks(old(mem[..]), mem[..], old(owner)) && KeepsEntries(old(mem[..]), mem[..], old(owner))
      ensures g.Some? ==> Child(owner, f, i, g.value) && Leads(mem[..], f, i, g.value)
      ensures g.None? ==> UnusedSize(regions) < allocOffset
    {
      if !Present(mem[Slot(f, i)]) {
        g := AddTable(f, i);
      } else {
        assert Child(owner, f, i, Frame(mem[..][Slot(f, i)]));
        g := Some(Frame(mem[Slot(f, i)]));
      }
    }

    /** The three upper levels of l2_map_page. */
    method UpperTables(root: nat, gpa: nat) returns (f: Option<nat>)
      requires Valid() && IsRoot(owner, root)
      modifies this, mem
      ensures Valid() && Extends(old(owner), owner) && SameWalks(old(mem[..]), mem[..], old(owner))
      ensures f.Some? ==> Last(mem[..], root, PageOf(gpa), 0) == f
      ensures f.None? ==> UnusedSize(regions) < allocOffset
    {
      ghost var q := PageOf(gpa);
      ghost var s0, o0 := mem[..], owner;
      var f1 := EnsureTable(root, Shifted(gpa, 0));
      if f1.None? { return None; }
      ghost var s1, o1 := mem[..], owner;
      var f2 := EnsureTable(f1.value, Shifted(gpa, 1));
      SameChain(s0, s1, mem[..], o0, o1, owner);
      if f2.None? { return None; }
      ghost var s2, o2 := mem[..], owner;
      f := EnsureTable(f2.value, Shifted(gpa, 2));
      SameChain(s0, s2, mem[..], o0, o2, owner);
      if f.None? { return; }
      Reached(s1, s2, mem[..], o1, o2, root, f1.value, f2.value, f.value, q);
    }

    /** The last level of l2_map_page: the entry is written only if none is present. */
    method SetLeaf(f: nat, gpa: nat, hostPa: nat, flags: nat, ghost root: nat)
      requires Valid() && IsRoot(owner, root) && flags < PAGE && Present(flags)
      requires Last(mem[..], root, PageOf(gpa), 0) == Some(f)
      modifies mem
      ensures Valid()
      ensures FirstWins(old(mem[..]), mem[..], owner, root, PageOf(gpa), LeafEntry(hostPa, flags))
    {
      ghost var s, q, w := mem[..], PageOf(gpa), LeafEntry(hostPa, flags);
      LastOn(s, owner, root, root, q, 0);
      var j := Slot(f, Shifted(gpa, 3));
      if !Present(mem[j]) {
        EntryParts(hostPa - hostPa % PAGE, flags);
        mem[j] := Entry(hostPa - hostPa % PAGE, flags);
        LeafStep(s, mem[..], owner, f, w, root, q);
      } else {
        LeafStays(s, owner, f, w, root, q);
      }
    }

    /** l2_map_page; false where the guest exits because the heap is used up. */
    method MapPage(cpu: nat, vm: nat, gpa: nat, hostPa: nat, flags: nat) returns (ok: bool)
      requires Valid() && IsRoot(owner, Root(cpu, vm)) && flags < PAGE && Present(flags)
      modifies this, mem
      ensures Valid() && Extends(old(owner), owner)
      ensures ok ==> FirstWins(old(mem[..]), mem[..], old(owner), Root(cpu, vm), PageOf(gpa), LeafEntry(hostPa, flags))
      ensures !ok ==> SameWalks(old(mem[..]), mem[..], old(owner)) && UnusedSize(regions) < allocOffset
    {
      var root := Root(cpu, vm);
      var f := UpperTables(root, gpa);
      if f.None? { return false; }
      ghost var s := mem[..];
      SetLeaf(f.value, gpa, hostPa, flags, root);
      FirstWinsAfter(old(mem[..]), s, mem[..], old(owner), owner, root, PageOf(gpa), LeafEntry(hostPa, flags));
      return true;
    }

    /** One level of l2_gpa_to_pa: the table below f, or None if there is none. */
    method Descend(f: nat, gpa: nat, k: nat, ghost root: nat) returns (g: Option<nat>)
      requires Valid() && k < 3 && On(owner, f, root, PageOf(gpa), k)
      ensures Last(mem[..], f, PageOf(gpa), k) == if g.None? then None else Last(mem[..], g.value, PageOf(gpa), k + 1)
      ensures g.Some? ==> On(owner, g.value, root, PageOf(gpa), k + 1)
    {
      var j := Slot(f, Shifted(gpa, k));
      if !Present(mem[j]) { return None; }
      PrefixStep(PageOf(gpa), k);
      assert Child(owner, f, Index(PageOf(gpa), k), Frame(mem[..][j]));
      return Some(Frame(mem[j]));
    }

    /** The three upper levels of l2_gpa_to_pa. */
    method LastTable(root: nat, gpa: nat) returns (f: Option<nat>)
      requires Valid() && IsRoot(owner, root)
      ensures f == Last(mem[..], root, PageOf(gpa), 0)
      ensures f.Some? ==> On(owner, f.value, root, PageOf(gpa), 3)
    {
      var pdpt := Descend(root, gpa, 0, root);
      if pdpt.None? { return None; }
      var pd := Descend(pdpt.value, gpa, 1, root);
      if pd.None? { return None; }
      f := Descend(pd.value, gpa, 2, root);
    }

    /** l2_gpa_to_pa */
    method GpaToPa(cpu: nat, vm: nat, gpa: nat) returns (pa: nat)
      requires Valid() && IsRoot(owner, Root(cpu, vm))
      ensures pa == Translated(Walk(mem[..], Root(cpu, vm), PageOf(gpa)), gpa)
    {
      var pt := LastTable(Root(cpu, vm), gpa);
      if pt.None? { return 0; }
      var w := mem[Slot(pt.value, Shifted(gpa, 3))];
      if !Present(w) { return 0; }
      return w - w % PAGE + gpa % PAGE;
    }

    /** The zeroed PML4 that nested_create_vm starts from. */
    method NewRoot(cpu: nat, vm: nat)
      requires Valid() && cpu < 4 && vm < 4
      modifies this`owner, mem
      ensures Valid() && IsRoot(owner, Root(cpu, vm))
      ensures forall r :: IsRoot(old(owner), r) ==> IsRoot(owner, r)
      ensures forall q :: 0 <= q < PAGES ==> Walk(mem[..], Root(cpu, vm), q) == None
      ensures SameWalks(old(mem[..]), mem[..], old(owner) - {Root(cpu, vm)})
    {
      var root := Root(cpu, vm);
      ghost var s := mem[..];
      ZeroPage(root);
      RootStep(s, mem[..], owner, root);
      RootPlaced(owner, HEAP_FRAME + allocOffset / PAGE, cpu, vm, root);
      owner := owner[root := Node(root, 0, 0)];
    }

    /** One region of setup_l2_page_tables, behind those before it. */
    method MapRegion(i: nat, v: Vm, ghost s0: seq<nat>, ghost o0: Owners) returns (ok: bool)
      requires Valid() && i < |regions| && IsRoot(o0, Root(v.cpu, v.vm)) && v.flags < PAGE && Present(v.flags)
      requires Extends(o0, owner) && Filled(s0, mem[..], o0, v, regions, i, 0)
      modifies this, mem
      ensures Valid() && Extends(o0, owner)
      ensures ok ==> Filled(s0, mem[..], o0, v, regions, i + 1, 0)
      ensures !ok ==> UnusedSize(regions) < allocOffset
    {
      var r := regions[i];
      var n := Mapped(r, v.unused);
      var p := 0;
      while p < n
        invariant 0 <= p <= n
        invariant Valid() && Extends(o0, owner) && Filled(s0, mem[..], o0, v, regions, i, p)
      {
        ghost var s, o := mem[..], owner;
        var gpa := r.gpa + p * PAGE;
        var backing := Backing(r, p, v.cpu, v.vm);
        ok := MapPage(v.cpu, v.vm, gpa, backing, v.flags);
        ExtendsTwice(o0, o, owner);
        if !ok { return; }
        FilledStep(s0, s, mem[..], o0, o, v, regions, i, p, gpa, LeafEntry(backing, v.flags));
        p := p + 1;
      }
      FilledRegion(s0, mem[..], o0, v, regions, i);
      return true;
    }

    /** setup_l2_page_tables; false where the heap is used up on the way. */
    method Setup(intel: bool, cpu: nat, vm: nat, unused: nat) returns (ok: bool)
      requires Valid() && IsRoot(owner, Root(cpu, vm))
      modifies this, mem
      ensures Valid() && Extends(old(owner), owner)
      ensures ok ==> Filled(old(mem[..]), mem[..], old(owner), Vm(cpu, vm, Flags(intel), unused), regions, |regions|, 0)
      ensures !ok ==> UnusedSize(regions) < allocOffset
    {
      ghost var s0, o0 := mem[..], owner;
      var v := Vm(cpu, vm, Flags(intel), unused);
      var i := 0;
      while i < |regions|
        invariant 0 <= i <= |regions|
        invariant Valid() && Extends(o0, owner) && Filled(s0, mem[..], o0, v, regions, i, 0)
      {
        ok := MapRegion(i, v, s0, o0);
        if !ok { return; }
        i := i + 1;
      }
      return true;
    }

    /** The page tables of nested_create_vm: a fresh root, then every region. */
    method CreateVm(intel: bool, cpu: nat, vm: nat) returns (ok: bool)
      requires Valid() && cpu < 4 && vm < 4
      modifies this, mem
      ensures Valid() && IsRoot(owner, Root(cpu, vm))
      ensures ok ==> SameWalksExcept(old(mem[..]), mem[..], old(owner), Root(cpu, vm))
      ensures ok ==> forall q :: 0 <= q < PAGES ==>
                Walk(mem[..], Root(cpu, vm), q) == Plan(Vm(cpu, vm, Flags(intel), 0), regions, |regions|, q)
      ensures ok && IsSyzos(regions) ==> IsVm(mem[..], cpu, vm)
      ensures ok ==> Flagged(mem[..], Root(cpu, vm), if intel then 0x337 else 0x67)
      ensures !ok ==> UnusedSize(regions) < allocOffset
    {
      NewRoot(cpu, vm);
      ghost var s, o := mem[..], owner;
      ok := Setup(intel, cpu, vm, 0);
      if ok {
        FilledFresh(old(mem[..]), s, mem[..], old(owner), o, Vm(cpu, vm, Flags(intel), 0), regions);
        AllFlagged(mem[..], Vm(cpu, vm, Flags(intel), 0), regions);
        if IsSyzos(regions) { SyzosVm(mem[..], Vm(cpu, vm, Flags(intel), 0), regions); }
      }
    }

    method CopyWords(at: nat, words: seq<nat>)
      requires at + |words| <= mem.Length
      modifies mem
      ensures mem[at..at + |words|] == words
      ensures forall j :: 0 <= j < mem.Length && !(at <= j < at + |words|) ==> mem[j] == old(mem[j])
    {
      for i := 0 to |words|
        invariant mem[at..at + i] == words[..i]
        invariant forall j :: 0 <= j < mem.Length && !(at <= j < at + i) ==> mem[j] == old(mem[j])
      {
        mem[at + i] := words[i];
      }
    }

    /**
     The copy of nested_load_code, word by word: the instructions go where the VM's address 0x5_0000
     leads; false where the guest exits because it leads nowhere.
     */
    method LoadCode(cpu: nat, vm: nat, insns: seq<nat>) returns (ok: bool)
      requires Valid() && cpu < 4 && vm < 4 && IsRoot(owner, Root(cpu, vm))
      requires IsVm(mem[..], cpu, vm) || Walk(mem[..], Root(cpu, vm), 0x50).None?
      modifies mem
      ensures Valid() && (ok <==> old(Walk(mem[..], Root(cpu, vm), 0x50).Some?))
      ensures SameWalks(old(mem[..]), mem[..], owner)
      ensures ok ==> Fetches(mem[..], cpu, vm, 0x5_0000, OnePage(insns))
      ensures forall j :: 0 <= j < mem.Length && !(ok && Slot(Root(cpu, vm) - 1, 0) <= j < Slot(Root(cpu, vm), 0)) ==>
                mem[j] == old(mem[j])
    {
      var pa := GpaToPa(cpu, vm, 0x5_0000);
      CodeAt(mem[..], cpu, vm, pa);
      if pa == 0 { return false; }
      var at, words := pa / 8, OnePage(insns);
      CopyWords(at, words);
      CodeLoaded(old(mem[..]), mem[..], owner, HEAP_FRAME + allocOffset / PAGE, cpu, vm, at, words);
      return true;
    }
  }

  ghost predicate SameWalksExcept(s: seq<nat>, s': seq<nat>, owner: Owners, t: nat) {
    forall r, q {:trigger Walk(s', r, q)} ::
          IsRoot(owner, r) && r != t && 0 <= q < PAGES ==> Walk(s', r, q) == Walk(s, r, q)
  }

  lemma {:induction false} FilledFresh(s0: seq<nat>, s: seq<nat>, s': seq<nat>, o0: Owners, o: Owners, v: Vm,
                                       regions: seq<Region>)
    requires Filled(s, s', o, v, regions, |regions|, 0) && IsRoot(o, Root(v.cpu, v.vm))
    requires forall q :: 0 <= q < PAGES ==> Walk(s, Root(v.cpu, v.vm), q) == None
    requires forall r :: IsRoot(o0, r) ==> IsRoot(o, r)
    requires SameWalks(s0, s, o0 - {Root(v.cpu, v.vm)})
    ensures forall q :: 0 <= q < PAGES ==> Walk(s', Root(v.cpu, v.vm), q) == Plan(v, regions, |regions|, q)
    ensures SameWalksExcept(s0, s', o0, Root(v.cpu, v.vm))
  {
    forall r, q {:trigger Walk(s', r, q)} | IsRoot(o0, r) && r != Root(v.cpu, v.vm) && 0 <= q < PAGES
      ensures Walk(s', r, q) == Walk(s0, r, q)
    {
      assert IsRoot(o0 - {Root(v.cpu, v.vm)}, r);
      assert Walk(s, r, q) == Walk(s0, r, q);
    }
  }

  lemma {:induction false} ExtendsTwice(o: Owners, o': Owners, o'': Owners)
    requires Extends(o, o') && Extends(o', o'')
    ensures Extends(o, o'')
  {
  }

  // ----- what setup maps -----

  datatype Vm = Vm(cpu: nat, vm: nat, flags: nat, unused: nat)

  /** Intel: present, rwx, write-back, accessed, dirty; AMD: present, rw, user, accessed, dirty. */
  function Flags(intel: bool): (f: nat)
    ensures f < PAGE && Present(f)
  {
    if intel then 7 + 0x30 + 0x100 + 0x200 else 7 + 0x20 + 0x40
  }

  predicate NoHostMem(r: Region) { r.flags / 64 % 2 == 1 }
  predicate Remaining(r: Region) { r.flags / 128 % 2 == 1 }

  /** How many pages of the region are mapped. */
  function Mapped(r: Region, unused: nat): nat {
    if NoHostMem(r) then 0
    else if Remaining(r) then (if unused < 16 then 16 else unused)
    else r.pages
  }

  function Backing(r: Region, p: nat, cpu: nat, vm: nat): nat {
    if r.gpa == 0x5_0000 && p == 0 then 0x40_0000 + cpu * 0x4_0000 + 0x1000 + vm * 0x8000 + 0x2000
    else if r.gpa == 0x6_0000 then 0x40_0000 + cpu * 0x4_0000 + 0x1000 + vm * 0x8000 + 0x1000
    else r.gpa + p * PAGE
  }

  /** The entry that page q gets from the first n pages of region r. */
  function PlanPages(v: Vm, r: Region, n: nat, q: nat): Option<nat> {
    if n == 0 then None
    else
      match PlanPages(v, r, n - 1, q)
      case Some(w) => Some(w)
      case None =>
        if PageOf(r.gpa + (n - 1) * PAGE) == q then Some(LeafEntry(Backing(r, n - 1, v.cpu, v.vm), v.flags)) else None
  }

  /** The entry that page q gets from the first n regions. */
  function Plan(v: Vm, regions: seq<Region>, n: nat, q: nat): Option<nat>
    requires n <= |regions|
  {
    if n == 0 then None
    else
      match Plan(v, regions, n - 1, q)
      case Some(w) => Some(w)
      case None => PlanPages(v, regions[n - 1], Mapped(regions[n - 1], v.unused), q)
  }

  function PlanUpTo(v: Vm, regions: seq<Region>, n: nat, p: nat, q: nat): Option<nat>
    requires n <= |regions| && (p > 0 ==> n < |regions|)
  {
    match Plan(v, regions, n, q)
    case Some(w) => Some(w)
    case None => if p == 0 then None else PlanPages(v, regions[n], p, q)
  }

  /** What was mapped stays; the rest of the VM's pages follow the plan; other VMs are untouched. */
  ghost predicate Filled(s0: seq<nat>, s: seq<nat>, o: Owners, v: Vm, regions: seq<Region>, n: nat, p: nat)
    requires n <= |regions| && (p > 0 ==> n < |regions|)
  {
    forall r, q {:trigger Walk(s, r, q)} :: IsRoot(o, r) && 0 <= q < PAGES ==>
      Walk(s, r, q) == if r == Root(v.cpu, v.vm) && Walk(s0, r, q).None? then PlanUpTo(v, regions, n, p, q)
                       else Walk(s0, r, q)
  }

  lemma {:induction false} FilledStep(s0: seq<nat>, s: seq<nat>, s': seq<nat>, o0: Owners, o: Owners, v: Vm,
                                      regions: seq<Region>,
                   n: nat, p: nat, gpa: nat, w: nat)
    requires n < |regions| && Filled(s0, s, o0, v, regions, n, p) && Extends(o0, o)
    requires gpa == regions[n].gpa + p * PAGE && w == LeafEntry(Backing(regions[n], p, v.cpu, v.vm), v.flags)
    requires FirstWins(s, s', o, Root(v.cpu, v.vm), PageOf(gpa), w)
    ensures Filled(s0, s', o0, v, regions, n, p + 1)
  {
    forall r, q {:trigger Walk(s', r, q)} | IsRoot(o0, r) && 0 <= q < PAGES
      ensures Walk(s', r, q) == if r == Root(v.cpu, v.vm) && Walk(s0, r, q).None? then PlanUpTo(v, regions, n, p + 1, q)
                                else Walk(s0, r, q)
    {
      assert Walk(s, r, q) == if r == Root(v.cpu, v.vm) && Walk(s0, r, q).None? then PlanUpTo(v, regions, n, p, q)
                              else Walk(s0, r, q);
      assert p == 0 ==> PlanPages(v, regions[n], p, q) == None;
    }
  }

  lemma {:induction false} FilledRegion(s0: seq<nat>, s: seq<nat>, o: Owners, v: Vm, regions: seq<Region>, n: nat)
    requires n < |regions| && Filled(s0, s, o, v, regions, n, Mapped(regions[n], v.unused))
    ensures Filled(s0, s, o, v, regions, n + 1, 0)
  {
  }

  // ----- disjoint regions -----

  function First(r: Region): nat { r.gpa / PAGE }

  /** Pages that belong to the region, mapped or not. */
  function Extent(r: Region, unused: nat): nat { if NoHostMem(r) then r.pages else Mapped(r, unused) }

  predicate Within(r: Region, unused: nat, q: nat) { First(r) <= q < First(r) + Extent(r, unused) }

  /** Regions are page-aligned, lie below 2^48 and do not overlap. */
  ghost predicate Disjoint(regions: seq<Region>, unused: nat) {
    && (forall i :: 0 <= i < |regions| ==> regions[i].gpa % PAGE == 0
                                           && First(regions[i]) + Extent(regions[i], unused) <= PAGES)
    && (forall i, j, q :: 0 <= i < j < |regions| && Within(regions[i], unused, q) ==> !Within(regions[j], unused, q))
  }

  lemma {:induction false} PlanPagesAt(v: Vm, r: Region, n: nat, q: nat)
    requires r.gpa % PAGE == 0 && First(r) + n <= PAGES
    ensures PlanPages(v, r, n, q) ==
            if First(r) <= q < First(r) + n then Some(LeafEntry(Backing(r, q - First(r), v.cpu, v.vm), v.flags))
                else None
  {
    if n > 0 {
      PlanPagesAt(v, r, n - 1, q);
      assert PageOf(r.gpa + (n - 1) * PAGE) == First(r) + n - 1;
    }
  }

  lemma {:induction false} PlanMiss(v: Vm, regions: seq<Region>, n: nat, q: nat)
    requires n <= |regions| && Disjoint(regions, v.unused)
    requires forall i :: 0 <= i < n && Within(regions[i], v.unused, q) ==> NoHostMem(regions[i])
    ensures Plan(v, regions, n, q) == None
  {
    if n > 0 {
      PlanMiss(v, regions, n - 1, q);
      PlanPagesAt(v, regions[n - 1], Mapped(regions[n - 1], v.unused), q);
    }
  }

  /** Every page of a mapped region gets exactly its intended backing. */
  lemma {:induction false} PlanHit(v: Vm, regions: seq<Region>, n: nat, i: nat, q: nat)
    requires i < n <= |regions| && Disjoint(regions, v.unused)
    requires Within(regions[i], v.unused, q) && !NoHostMem(regions[i])
    ensures Plan(v, regions, n, q) ==
            Some(LeafEntry(Backing(regions[i], q - First(regions[i]), v.cpu, v.vm), v.flags))
  {
    if i == n - 1 {
      PlanMiss(v, regions, n - 1, q);
      PlanPagesAt(v, regions[i], Mapped(regions[i], v.unused), q);
    } else {
      PlanHit(v, regions, n - 1, i, q);
    }
  }

  /** syzos_mem_regions of executor/common_kvm_amd64.h, the heap with the given number of pages. */
  function SyzosRegions(heap: nat): seq<Region> {
    [Region(0, 5, 0x20), Region(0x2_5000, 10, 0), Region(0x2_f000, 1, 0), Region(0x18_0000, 64, 0),
     Region(0x17_f000, 1, 0), Region(0x3_0000, 10, 0), Region(0x4_0000, 1, 0x40), Region(0x4_1000, 2, 2),
     Region(0x5_0000, 4, 5), Region(0x5_4000, 4, 0xc), Region(0x5_8000, 1, 0), Region(0x6_0000, 1, 0),
     Region(0x40_0000, 256, 0), Region(0xfec0_0000, 1, 0), Region(UNUSED, heap, 0x80)]
  }

  /** First page, and number of pages, of each of those regions. */
  function SyzosPages(unused: nat): seq<(nat, nat)> {
    [(0, 5), (0x25, 10), (0x2f, 1), (0x180, 64), (0x17f, 1), (0x30, 10), (0x40, 1), (0x41, 2), (0x50, 4),
     (0x54, 4), (0x58, 1), (0x60, 1), (0x400, 256), (0xfec00, 1), (0x1000, if unused < 16 then 16 else unused)]
  }

  lemma {:induction false} SyzosExtent(heap: nat, unused: nat, i: nat)
    requires i < 15
    ensures |SyzosRegions(heap)| == |SyzosPages(unused)| == 15
    ensures var r := SyzosRegions(heap)[i];
            r.gpa % PAGE == 0 && First(r) == SyzosPages(unused)[i].0 && Extent(r, unused) == SyzosPages(unused)[i].1
  {
  }

  /** The table of regions is disjoint exactly while the mapped part of the heap ends before the IOAPIC page. */
  lemma {:induction false} SyzosDisjointIff(heap: nat, unused: nat)
    ensures Disjoint(SyzosRegions(heap), unused) <==> unused <= 0xfec00 - 0x1000
  {
    var regions, pages := SyzosRegions(heap), SyzosPages(unused);
    forall i | 0 <= i < 15
      ensures regions[i].gpa % PAGE == 0 && First(regions[i]) == pages[i].0 && Extent(regions[i], unused) == pages[i].1
    {
      SyzosExtent(heap, unused, i);
    }
    if unused > 0xfec00 - 0x1000 {
      assert Within(regions[13], unused, 0xfec00) && Within(regions[14], unused, 0xfec00);
    } else {
      forall i, j, q | 0 <= i < j < 15 && Within(regions[i], unused, q) ensures !Within(regions[j], unused, q) {
        PagesApart(unused, i, j);
      }
    }
  }

  lemma {:induction false} PagesApart(unused: nat, i: nat, j: nat)
    requires i < j < 15 && unused <= 0xfec00 - 0x1000
    ensures var p := SyzosPages(unused); p[i].0 + p[i].1 <= p[j].0 || p[j].0 + p[j].1 <= p[i].0
  {
  }

  /** The address that l2_gpa_to_pa makes of an entry. */
  function Translated(e: Option<nat>, gpa: nat): nat {
    match e
    case None => 0
    case Some(w) => w - w % PAGE + gpa % PAGE
  }

  /** After setup over disjoint regions, an address in region i reaches that region's backing. */
  lemma {:induction false} ReachesBacking(v: Vm, regions: seq<Region>, i: nat, gpa: nat)
    requires i < |regions| && Disjoint(regions, v.unused) && v.flags < PAGE
    requires Within(regions[i], v.unused, PageOf(gpa))
    ensures var r := regions[i];
            Translated(Plan(v, regions, |regions|, PageOf(gpa)), gpa) ==
            if NoHostMem(r) then 0 else Backing(r, PageOf(gpa) - First(r), v.cpu, v.vm) + gpa % PAGE
  {
    var q, r := PageOf(gpa), regions[i];
    if NoHostMem(r) {
      PlanMiss(v, regions, |regions|, q);
    } else {
      PlanHit(v, regions, |regions|, i, q);
      BackingAligned(r, q - First(r), v.cpu, v.vm);
      EntryFrame(Backing(r, q - First(r), v.cpu, v.vm), v.flags);
    }
  }

  lemma {:induction false} BackingAligned(r: Region, p: nat, cpu: nat, vm: nat)
    requires r.gpa % PAGE == 0
    ensures Backing(r, p, cpu, vm) % PAGE == 0
  {
  }

  lemma {:induction false} EntryFrame(b: nat, flags: nat)
    requires b % PAGE == 0 && flags < PAGE
    ensures LeafEntry(b, flags) - LeafEntry(b, flags) % PAGE == b
  {
  }

  // ----- what the guest's own regions come to -----

  predicate IsSyzos(regions: seq<Region>) { |regions| == 15 && regions == SyzosRegions(regions[14].pages) }

  /** The pages of a nested VM that have host memory; the heap shows `heap` pages. */
  predicate Backed(q: nat, heap: nat) {
    || q < 5 || 0x25 <= q < 0x3a || 0x41 <= q < 0x43 || 0x50 <= q < 0x59 || q == 0x60
    || 0x17f <= q < 0x1c0 || 0x400 <= q < 0x500 || 0x1000 <= q < 0x1000 + heap || q == 0xfec00
  }

  /** Where an address of VM vm on CPU cpu leads: its own code and stack page, and elsewhere to itself. */
  function Leading(cpu: nat, vm: nat, heap: nat, gpa: nat): nat {
    var q, o := PageOf(gpa), gpa % PAGE;
    if !Backed(q, heap) then 0
    else if q == 0x50 then 0x40_3000 + 0x4_0000 * cpu + 0x8000 * vm + o
    else if q == 0x60 then 0x40_2000 + 0x4_0000 * cpu + 0x8000 * vm + o
    else q * PAGE + o
  }

  /** The tables of the VM lead every address where it belongs. */
  ghost predicate IsVm(s: seq<nat>, cpu: nat, vm: nat) {
    forall gpa: nat {:trigger PageOf(gpa)} ::
      Translated(Walk(s, Root(cpu, vm), PageOf(gpa)), gpa) == Leading(cpu, vm, 16, gpa)
  }

  /** The region of a backed page. */
  function RegionOf(q: nat, heap: nat): (i: nat)
    requires Backed(q, heap)
    ensures i < 15 && i != 6
  {
    if q < 5 then 0 else if q < 0x2f then 1 else if q == 0x2f then 2 else if q < 0x3a then 5
    else if q < 0x43 then 7 else if q < 0x54 then 8 else if q < 0x58 then 9 else if q == 0x58 then 10
    else if q == 0x60 then 11 else if q == 0x17f then 4 else if q < 0x1c0 then 3 else if q < 0x500 then 12
    else if q < 0x1000 + heap && q >= 0x1000 then 14 else 13
  }

  lemma {:induction false} RegionHas(heap: nat, unused: nat, n: nat, q: nat)
    requires n == if unused < 16 then 16 else unused
    requires Backed(q, n)
    ensures var r := SyzosRegions(heap)[RegionOf(q, n)]; Within(r, unused, q) && !NoHostMem(r)
  {
    SyzosExtent(heap, unused, RegionOf(q, n));
  }

  lemma {:induction false} RegionLacks(heap: nat, unused: nat, n: nat, q: nat, i: nat)
    requires n == if unused < 16 then 16 else unused
    requires !Backed(q, n) && i < 15
    ensures var r := SyzosRegions(heap)[i]; Within(r, unused, q) ==> NoHostMem(r)
  {
    SyzosExtent(heap, unused, i);
  }

  /** What stands behind a page of the guest's regions. */
  lemma {:induction false} SyzosBacking(heap: nat, n: nat, cpu: nat, vm: nat, q: nat)
    requires Backed(q, n)
    ensures var r := SyzosRegions(heap)[RegionOf(q, n)];
            First(r) <= q ==>
            Backing(r, q - First(r), cpu, vm) ==
            if q == 0x50 then 0x40_3000 + 0x4_0000 * cpu + 0x8000 * vm
            else if q == 0x60 then 0x40_2000 + 0x4_0000 * cpu + 0x8000 * vm
            else q * PAGE
  {
  }

  /** Set-up over the guest's regions leads every address where it belongs. */
  lemma {:induction false} SyzosLeads(heap: nat, v: Vm, n: nat, gpa: nat)
    requires v.unused <= 0xfec00 - 0x1000 && v.flags < PAGE && n == if v.unused < 16 then 16 else v.unused
    ensures Translated(Plan(v, SyzosRegions(heap), 15, PageOf(gpa)), gpa) == Leading(v.cpu, v.vm, n, gpa)
  {
    var q, regions := PageOf(gpa), SyzosRegions(heap);
    SyzosDisjointIff(heap, v.unused);
    if Backed(q, n) {
      RegionHas(heap, v.unused, n, q);
      ReachesBacking(v, regions, RegionOf(q, n), gpa);
      SyzosBacking(heap, n, v.cpu, v.vm, q);
    } else {
      forall i | 0 <= i < 15 && Within(regions[i], v.unused, q) ensures NoHostMem(regions[i]) {
        RegionLacks(heap, v.unused, n, q, i);
      }
      PlanMiss(v, regions, 15, q);
    }
  }

  lemma {:induction false} SyzosVm(s: seq<nat>, v: Vm, regions: seq<Region>)
    requires IsSyzos(regions) && v.unused == 0 && v.flags < PAGE
    requires forall q :: 0 <= q < PAGES ==> Walk(s, Root(v.cpu, v.vm), q) == Plan(v, regions, |regions|, q)
    ensures IsVm(s, v.cpu, v.vm)
  {
    forall gpa: nat {:trigger PageOf(gpa)}
      ensures Translated(Walk(s, Root(v.cpu, v.vm), PageOf(gpa)), gpa) == Leading(v.cpu, v.vm, 16, gpa)
    {
      SyzosLeads(regions[14].pages, v, 16, gpa);
      assert Walk(s, Root(v.cpu, v.vm), PageOf(gpa)) == Plan(v, regions, |regions|, PageOf(gpa));
    }
  }

  /** Every page that is mapped under the root has these flags. */
  ghost predicate Flagged(s: seq<nat>, root: nat, flags: nat) {
    forall q :: 0 <= q < PAGES ==> var e := Walk(s, root, q); e.Some? ==> e.value % PAGE == flags
  }

  lemma {:induction false} PagesFlagged(v: Vm, r: Region, n: nat, q: nat)
    requires v.flags < PAGE
    ensures var e := PlanPages(v, r, n, q); e.Some? ==> e.value % PAGE == v.flags
  {
    if n > 0 {
      PagesFlagged(v, r, n - 1, q);
      EntryFlags(Backing(r, n - 1, v.cpu, v.vm), v.flags);
    }
  }

  lemma {:induction false} EntryFlags(b: nat, flags: nat)
    requires flags < PAGE
    ensures LeafEntry(b, flags) % PAGE == flags
  {
  }

  lemma {:induction false} PlanFlagged(v: Vm, regions: seq<Region>, n: nat, q: nat)
    requires v.flags < PAGE && n <= |regions|
    ensures var e := Plan(v, regions, n, q); e.Some? ==> e.value % PAGE == v.flags
  {
    if n > 0 {
      PlanFlagged(v, regions, n - 1, q);
      PagesFlagged(v, regions[n - 1], Mapped(regions[n - 1], v.unused), q);
    }
  }

  lemma {:induction false} AllFlagged(s: seq<nat>, v: Vm, regions: seq<Region>)
    requires v.flags < PAGE
    requires forall q :: 0 <= q < PAGES ==> Walk(s, Root(v.cpu, v.vm), q) == Plan(v, regions, |regions|, q)
    ensures Flagged(s, Root(v.cpu, v.vm), v.flags)
  {
    forall q | 0 <= q < PAGES
      ensures var e := Walk(s, Root(v.cpu, v.vm), q); e.Some? ==> e.value % PAGE == v.flags
    {
      PlanFlagged(v, regions, |regions|, q);
    }
  }

  /** The frames of a VM: its code is right before its root, its stack right before its code. */
  lemma {:induction false} OwnFrames(cpu: nat, vm: nat, heap: nat, o: nat)
    requires o < PAGE
    ensures Leading(cpu, vm, heap, 0x5_0000 + o) == (Root(cpu, vm) - 1) * PAGE + o
    ensures Leading(cpu, vm, heap, 0x6_0000 + o) == (Root(cpu, vm) - 2) * PAGE + o
  {
    RootIs(cpu, vm);
    assert PageOf(0x5_0000 + o) == 0x50 && (0x5_0000 + o) % PAGE == o;
    assert PageOf(0x6_0000 + o) == 0x60 && (0x6_0000 + o) % PAGE == o;
  }

  lemma {:induction false} RootIs(cpu: nat, vm: nat)
    ensures Root(cpu, vm) == 0x404 + 64 * cpu + 8 * vm
  {
  }

  lemma {:induction false} RootPlaced(owner: Owners, limit: nat, cpu: nat, vm: nat, root: nat)
    requires Placed(owner, limit) && cpu < 4 && vm < 4 && root == Root(cpu, vm) && limit >= HEAP_FRAME
    ensures Placed(owner[root := Node(root, 0, 0)], limit)
  {
    RootIs(cpu, vm);
  }

  /** Two VMs share neither code nor stack, and no table of any VM is among these pages. */
  lemma {:induction false} FramesApart(cpu: nat, vm: nat, cpu': nat, vm': nat)
    requires cpu < 4 && vm < 4 && cpu' < 4 && vm' < 4 && (cpu != cpu' || vm != vm')
    ensures var s := {Root(cpu, vm), Root(cpu, vm) - 1, Root(cpu, vm) - 2};
            var s' := {Root(cpu', vm'), Root(cpu', vm') - 1, Root(cpu', vm') - 2};
            s !! s' && (forall f :: f in s ==> 0x400 <= f < 0x500)
  {
    RootIs(cpu, vm);
    RootIs(cpu', vm');
  }

  /** No address of a nested VM leads to the code page or the stack page of the guest itself. */
  lemma {:induction false} HidesGuest(cpu: nat, vm: nat, heap: nat, gpa: nat)
    ensures Leading(cpu, vm, heap, gpa) / PAGE != 0x50 && Leading(cpu, vm, heap, gpa) / PAGE != 0x60
  {
  }

  /** Addresses below 2^48 that lead to the same place are the same, or one names that place directly. */
  lemma {:induction false} LeadsApart(cpu: nat, vm: nat, heap: nat, g: nat, g': nat)
    requires g < g' < 0x1_0000_0000_0000 && cpu < 4 && vm < 4
    ensures Leading(cpu, vm, heap, g) == Leading(cpu, vm, heap, g') <==>
            || (!Backed(g / PAGE, heap) && (!Backed(g' / PAGE, heap)))
            || (g == 0 && !Backed(g' / PAGE, heap))
            || (g / PAGE in {0x50, 0x60} && g' == Leading(cpu, vm, heap, g))
  {
    assert PageOf(g) == g / PAGE && PageOf(g') == g' / PAGE;
  }

  /** The word that a nested VM finds at an address. */
  function Fetch(s: seq<nat>, cpu: nat, vm: nat, gpa: nat): nat {
    var pa := Translated(Walk(s, Root(cpu, vm), PageOf(gpa)), gpa);
    if pa / 8 < |s| then s[pa / 8] else 0
  }

  /** From this address on it finds these words. */
  predicate Fetches(s: seq<nat>, cpu: nat, vm: nat, gpa: nat, words: seq<nat>) {
    forall i :: 0 <= i < |words| ==> Fetch(s, cpu, vm, gpa + 8 * i) == words[i]
  }

  /** As much of a program as fits the code page. */
  function OnePage(insns: seq<nat>): (r: seq<nat>)
    ensures |r| <= 512 && r <= insns && (|insns| <= 512 ==> r == insns)
  {
    if |insns| > 512 then insns[..512] else insns
  }

  lemma {:induction false} CodeAt(s: seq<nat>, cpu: nat, vm: nat, pa: nat)
    requires IsVm(s, cpu, vm) || Walk(s, Root(cpu, vm), 0x50).None?
    requires pa == Translated(Walk(s, Root(cpu, vm), PageOf(0x5_0000)), 0x5_0000)
    ensures pa == 0 <==> Walk(s, Root(cpu, vm), 0x50).None?
    ensures pa != 0 ==> IsVm(s, cpu, vm) && pa == (Root(cpu, vm) - 1) * PAGE && pa / 8 == Slot(Root(cpu, vm) - 1, 0)
  {
    CodePage();
    if IsVm(s, cpu, vm) { CodeIn(s, cpu, vm, pa); }
  }

  lemma {:induction false} CodePage()
    ensures PageOf(0x5_0000) == 0x50
  {
  }

  lemma {:induction false} CodeIn(s: seq<nat>, cpu: nat, vm: nat, pa: nat)
    requires IsVm(s, cpu, vm) && pa == Translated(Walk(s, Root(cpu, vm), PageOf(0x5_0000)), 0x5_0000)
    ensures pa == (Root(cpu, vm) - 1) * PAGE && pa / 8 == Slot(Root(cpu, vm) - 1, 0) && pa > 0
  {
    OwnFrames(cpu, vm, 16, 0);
    RootIs(cpu, vm);
  }

  lemma {:induction false} FetchWord(s: seq<nat>, cpu: nat, vm: nat, k: nat)
    requires IsVm(s, cpu, vm) && k < 512 && Slot(Root(cpu, vm), 0) <= |s|
    ensures Fetch(s, cpu, vm, 0x5_0000 + 8 * k) == s[Slot(Root(cpu, vm) - 1, k)]
  {
    var gpa := 0x5_0000 + 8 * k;
    OwnFrames(cpu, vm, 16, 8 * k);
    assert Translated(Walk(s, Root(cpu, vm), PageOf(gpa)), gpa) == Leading(cpu, vm, 16, gpa);
  }

  lemma {:induction false} FetchCode(s: seq<nat>, cpu: nat, vm: nat, at: nat, words: seq<nat>)
    requires IsVm(s, cpu, vm) && |words| <= 512 && Slot(Root(cpu, vm), 0) <= |s| && at == Slot(Root(cpu, vm) - 1, 0)
    requires s[at..at + |words|] == words
    ensures Fetches(s, cpu, vm, 0x5_0000, words)
  {
    forall i | 0 <= i < |words| ensures Fetch(s, cpu, vm, 0x5_0000 + 8 * i) == words[i] {
      FetchWord(s, cpu, vm, i);
      assert s[at..at + |words|][i] == s[at + i];
    }
  }

  /** Writing a VM's code changes no translation. */
  lemma {:induction false} CodeWrite(s: seq<nat>, s': seq<nat>, owner: Owners, limit: nat, cpu: nat, vm: nat)
    requires Tables(s, owner) && Placed(owner, limit) && cpu < 4 && vm < 4 && |s'| == |s|
    requires forall j :: 0 <= j < |s| && !(Slot(Root(cpu, vm) - 1, 0) <= j < Slot(Root(cpu, vm), 0)) ==> s'[j] == s[j]
    ensures Tables(s', owner) && SameWalks(s, s', owner)
  {
    var c := Root(cpu, vm) - 1;
    RootIs(cpu, vm);
    forall f, i {:trigger Slot(f, i)} | f in owner && 0 <= i < 512 && Slot(f, i) < |s|
      ensures s'[Slot(f, i)] == s[Slot(f, i)]
    {
      assert f != c;
    }
    assert AgreeOn(s, s', owner);
    forall r, q {:trigger Walk(s', r, q)} | IsRoot(owner, r) && 0 <= q < PAGES
      ensures Walk(s', r, q) == Walk(s, r, q)
    {
      ForeignWrites(s, s', owner, r, q);
    }
  }

  lemma {:induction false} CodeLoaded(s: seq<nat>, s': seq<nat>, owner: Owners, limit: nat, cpu: nat, vm: nat, at: nat,
                                      words: seq<nat>)
    requires Tables(s, owner) && Placed(owner, limit) && cpu < 4 && vm < 4 && |s'| == |s|
    requires IsVm(s, cpu, vm) && IsRoot(owner, Root(cpu, vm))
    requires at == Slot(Root(cpu, vm) - 1, 0) && |words| <= 512 && at + 512 <= |s| && s'[at..at + |words|] == words
    requires forall j :: 0 <= j < |s| && !(at <= j < at + |words|) ==> s'[j] == s[j]
    ensures Tables(s', owner) && SameWalks(s, s', owner) && IsVm(s', cpu, vm)
    ensures Fetches(s', cpu, vm, 0x5_0000, words)
    ensures forall j :: 0 <= j < |s| && !(at <= j < at + 512) ==> s'[j] == s[j]
  {
    CodeWrite(s, s', owner, limit, cpu, vm);
    StillVm(s, s', owner, cpu, vm);
    FetchCode(s', cpu, vm, at, words);
  }

  lemma {:induction false} StillVm(s: seq<nat>, s': seq<nat>, owner: Owners, cpu: nat, vm: nat)
    requires IsVm(s, cpu, vm) && IsRoot(owner, Root(cpu, vm)) && SameWalks(s, s', owner)
    ensures IsVm(s', cpu, vm)
  {
    forall gpa: nat {:trigger PageOf(gpa)}
      ensures Translated(Walk(s', Root(cpu, vm), PageOf(gpa)), gpa) == Leading(cpu, vm, 16, gpa)
    {
      assert Walk(s', Root(cpu, vm), PageOf(gpa)) == Walk(s, Root(cpu, vm), PageOf(gpa));
    }
  }

  /** (gpa >> shift) & 0x1FF with the shift of the level */
  function Shifted(gpa: nat, k: nat): (i: nat)
    requires k <= 3
    ensures i == Index(PageOf(gpa), k)
  {
    TopIndex(gpa);
    UpperIndex(gpa);
    LowerIndex(gpa);
    BottomIndex(gpa);
    if k == 0 then gpa / 0x80_0000_0000 % 512
    else if k == 1 then gpa / 0x4000_0000 % 512
    else if k == 2 then gpa / 0x20_0000 % 512
    else gpa / 0x1000 % 512
  }

  /** Slot i of table f leads to table g. */
  predicate Leads(s: seq<nat>, f: nat, i: nat, g: nat) {
    Slot(f, i) < |s| && Present(s[Slot(f, i)]) && Frame(s[Slot(f, i)]) == g
  }

  /** X86_SYZOS_ADDR_VM_PGTABLE, as a frame */
  function Root(cpu: nat, vm: nat): nat {
    (0x40_0000 + cpu * 0x4_0000 + 0x1000 + vm * 0x8000 + 0x3000) / PAGE
  }

  /** The VMs have roots of their own. */
  lemma {:induction false} RootsApart(cpu: nat, vm: nat, cpu': nat, vm': nat)
    requires cpu < 4 && vm < 4 && cpu' < 4 && vm' < 4
    ensures Root(cpu, vm) == Root(cpu', vm') <==> cpu == cpu' && vm == vm'
    ensures Root(cpu, vm) < HEAP_FRAME
  {
    assert Root(cpu, vm) == 0x404 + cpu * 64 + vm * 8;
    assert Root(cpu', vm') == 0x404 + cpu' * 64 + vm' * 8;
  }

  /** (host_pa & ~0xFFF) | flags */
  function LeafEntry(hostPa: nat, flags: nat): nat { hostPa - hostPa % PAGE + flags }

  lemma {:induction false} AllocKeeps(s: seq<nat>, s': seq<nat>, owner: Owners, page: Option<nat>)
    requires Tables(s, owner) && |s'| == |s|
    requires page.None? ==> s' == s
    requires page.Some? ==> page.value / PAGE !in owner
    requires page.Some? ==>
               var g := page.value / PAGE;
               forall j :: 0 <= j < |s| && !(Slot(g, 0) <= j < Slot(g, 512)) ==> s'[j] == s[j]
    ensures AgreeOn(s, s', owner) && SameWalks(s, s', owner) && KeepsEntries(s, s', owner) && Tables(s', owner)
  {
    if page.Some? { HeapWrite(s, s', owner, page.value / PAGE); }
    forall r, q {:trigger Walk(s', r, q)} | IsRoot(owner, r) && 0 <= q < PAGES ensures Walk(s', r, q) == Walk(s, r, q) {
      ForeignWrites(s, s', owner, r, q);
    }
  }

  lemma {:induction false} InstallStep(s0: seq<nat>, s: seq<nat>, s': seq<nat>, owner: Owners, f: nat, i: nat, g: nat,
                                       w: nat)
    requires SameWalks(s0, s, owner) && KeepsEntries(s0, s, owner)
    requires Installs(s, s', owner, f, i, g, w) && !Present(s0[Slot(f, i)])
    ensures SameWalks(s0, s', owner) && KeepsEntries(s0, s', owner)
    ensures Tables(s', WithTable(owner, f, i, g)) && Extends(owner, WithTable(owner, f, i, g))
  {
    InstallKeepsTables(s, s', owner, f, i, g, w);
    forall r, q {:trigger Walk(s', r, q)} | IsRoot(owner, r) && 0 <= q < PAGES
        ensures Walk(s', r, q) == Walk(s0, r, q) {
      InstallKeepsWalks(s, s', owner, f, i, g, w, r, q);
      assert Walk(s, r, q) == Walk(s0, r, q);
    }
    forall f', i' {:trigger Slot(f', i')} | f' in owner && 0 <= i' < 512 && Slot(f', i') < |s|
        && Present(s0[Slot(f', i')])
      ensures s'[Slot(f', i')] == s0[Slot(f', i')]
    {
      SlotApart(f, i, f', i');
    }
  }

  lemma {:induction false} SameChain(s: seq<nat>, s': seq<nat>, s'': seq<nat>, o: Owners, o': Owners, o'': Owners)
    requires SameWalks(s, s', o) && SameWalks(s', s'', o') && Extends(o, o') && Extends(o', o'')
    ensures SameWalks(s, s'', o) && Extends(o, o'')
  {
    forall r, q {:trigger Walk(s'', r, q)} | IsRoot(o, r) && 0 <= q < PAGES ensures Walk(s'', r, q) == Walk(s, r, q) {
      assert Walk(s', r, q) == Walk(s, r, q);
    }
  }

  /** After the three upper levels, page q is looked up in table f3. */
  lemma {:induction false} Reached(s1: seq<nat>, s2: seq<nat>, s3: seq<nat>, o1: Owners, o2: Owners,
                root: nat, f1: nat, f2: nat, f3: nat, q: nat)
    requires KeepsEntries(s1, s2, o1) && KeepsEntries(s2, s3, o2) && Extends(o1, o2)
    requires root in o1 && f1 in o1 && f2 in o2
    requires Leads(s1, root, Index(q, 0), f1) && Leads(s2, f1, Index(q, 1), f2) && Leads(s3, f2, Index(q, 2), f3)
    ensures Last(s3, root, q, 0) == Some(f3)
  {
    assert Leads(s2, root, Index(q, 0), f1);
    assert Leads(s3, root, Index(q, 0), f1);
    assert Leads(s3, f1, Index(q, 1), f2);
    assert Last(s3, f3, q, 3) == Some(f3);
    assert Last(s3, f2, q, 2) == Some(f3);
    assert Last(s3, f1, q, 1) == Some(f3);
  }

  lemma {:induction false} LeafStep(s: seq<nat>, s': seq<nat>, owner: Owners, f: nat, w: nat, t: nat, p: nat)
    requires Tables(s, owner) && IsRoot(owner, t) && p < PAGES
    requires Last(s, t, p, 0) == Some(f) && Slot(f, Index(p, 3)) < |s| && !Present(s[Slot(f, Index(p, 3))])
    requires s' == s[Slot(f, Index(p, 3)) := w] && Present(w)
    ensures Tables(s', owner) && FirstWins(s, s', owner, t, p, w)
  {
    forall r, q {:trigger Walk(s', r, q)} | IsRoot(owner, r) && 0 <= q < PAGES
      ensures Walk(s', r, q) == if r == t && q == p && Walk(s, t, p).None? then Some(w) else Walk(s, r, q)
    {
      LeafWrite(s, s', owner, f, w, t, p, r, q);
    }
    LeafWrite(s, s', owner, f, w, t, p, t, p);
  }

  lemma {:induction false} LeafStays(s: seq<nat>, owner: Owners, f: nat, w: nat, t: nat, p: nat)
    requires Last(s, t, p, 0) == Some(f) && Slot(f, Index(p, 3)) < |s| && Present(s[Slot(f, Index(p, 3))])
    ensures FirstWins(s, s, owner, t, p, w)
  {
    assert Walk(s, t, p).Some?;
  }

  lemma {:induction false} FirstWinsAfter(s: seq<nat>, s': seq<nat>, s'': seq<nat>, o: Owners, o': Owners, t: nat,
                                          p: nat, w: nat)
    requires SameWalks(s, s', o) && Extends(o, o') && FirstWins(s', s'', o', t, p, w) && IsRoot(o, t) && p < PAGES
    ensures FirstWins(s, s'', o, t, p, w)
  {
    assert Walk(s', t, p) == Walk(s, t, p);
    forall r, q {:trigger Walk(s'', r, q)} | IsRoot(o, r) && 0 <= q < PAGES
      ensures Walk(s'', r, q) == if r == t && q == p && Walk(s, t, p).None? then Some(w) else Walk(s, r, q)
    {
      assert Walk(s', r, q) == Walk(s, r, q);
    }
  }

  lemma {:induction false} HeapWrite(s: seq<nat>, s': seq<nat>, owner: Owners, g: nat)
    requires Tables(s, owner) && g !in owner && |s'| == |s|
    requires forall j :: 0 <= j < |s| && !(Slot(g, 0) <= j < Slot(g, 512)) ==> s'[j] == s[j]
    ensures AgreeOn(s, s', owner) && Tables(s', owner)
  {
    forall f, i {:trigger Slot(f, i)} | f in owner && 0 <= i < 512 && Slot(f, i) < |s|
        ensures s'[Slot(f, i)] == s[Slot(f, i)] {
    }
  }

  lemma {:induction false} RootStep(s: seq<nat>, s': seq<nat>, owner: Owners, root: nat)
    requires Tables(s, owner) && (root in owner ==> owner[root].depth == 0) && |s'| == |s| && Slot(root, 512) <= |s|
    requires forall i :: 0 <= i < 512 ==> s'[Slot(root, i)] == 0
    requires forall j :: 0 <= j < |s| && !(Slot(root, 0) <= j < Slot(root, 512)) ==> s'[j] == s[j]
    ensures Tables(s', owner[root := Node(root, 0, 0)])
    ensures SameWalks(s, s', owner - {root})
    ensures forall q :: 0 <= q < PAGES ==> Walk(s', root, q) == None
  {
    var o := owner - {root};
    WithoutRoot(s, owner, root);
    HeapWrite(s, s', o, root);
    forall r, q {:trigger Walk(s', r, q)} | IsRoot(o, r) && 0 <= q < PAGES ensures Walk(s', r, q) == Walk(s, r, q) {
      ForeignWrites(s, s', o, r, q);
    }
    WithEmptyRoot(s', o, root);
    forall q | 0 <= q < PAGES ensures Walk(s', root, q) == None {
      EmptyTable(s', root, q, 0);
    }
    assert owner[root := Node(root, 0, 0)] == o[root := Node(root, 0, 0)];
  }

  lemma {:induction false} WithoutRoot(s: seq<nat>, owner: Owners, root: nat)
    requires Tables(s, owner) && (root in owner ==> owner[root].depth == 0)
    ensures Tables(s, owner - {root})
  {
    var o := owner - {root};
    forall f, i {:trigger Slot(f, i)} | f in o && o[f].depth < 3 && 0 <= i < 512 && Slot(f, i) < |s|
        && Present(s[Slot(f, i)])
      ensures Child(o, f, i, Frame(s[Slot(f, i)]))
    {
      assert Child(owner, f, i, Frame(s[Slot(f, i)]));
    }
  }

  lemma {:induction false} WithEmptyRoot(s: seq<nat>, o: Owners, root: nat)
    requires Tables(s, o) && root !in o && Slot(root, 512) <= |s|
    requires forall i :: 0 <= i < 512 ==> s[Slot(root, i)] == 0
    ensures Tables(s, o[root := Node(root, 0, 0)])
  {
    var o' := o[root := Node(root, 0, 0)];
    forall f, i {:trigger Slot(f, i)} | f in o' && o'[f].depth < 3 && 0 <= i < 512 && Slot(f, i) < |s|
        && Present(s[Slot(f, i)])
      ensures Child(o', f, i, Frame(s[Slot(f, i)]))
    {
      if f != root { assert Child(o, f, i, Frame(s[Slot(f, i)])); }
    }
  }
}
