/**
 Where the copyin instructions of a call write (writeCopyin in prog/encodingexec.go over the traversal
 of prog/analysis.go), told by the place of a field in its pointee: fields lie one behind the other,
 and from the overlay field on again from the beginning. Over zeroed memory the instructions for a
 pointee leave exactly what the pointee means.
 */
module ExecLayout {
  import opened Basics
  import opened Varint
  import opened ExecFormat
  import opened ExecStream
  import opened StableOrder
  import opened ExecResources
  import S = Squash

  // ----- places -----

  /** The argument at the end of a path: a number is a field of a group, or 0 the option of a union. */
  function Sub(a: PArg, p: seq<nat>): Option<PArg>
    decreases |p|
  {
    if |p| == 0 then Some(a)
    else
      match a
      case PGroup(_, _, inner, _) => if p[0] < |inner| then Sub(inner[p[0]], p[1..]) else None
      case PUnion(_, _, o) => if p[0] == 0 then Sub(o, p[1..]) else None
      case _ => None
  }

  function Total(fs: seq<PArg>): nat { if |fs| == 0 then 0 else fs[0].size + Total(fs[1..]) }

  /** The sizes of the fields in front of field k, from the overlay field on if k is not before it. */
  function InFront(fs: seq<PArg>, overlay: nat, k: nat): nat
    requires k <= |fs|
  {
    Total(fs[if overlay <= k then overlay else 0..k])
  }

  /** How far behind the beginning of a the argument at the end of the path lies. */
  function Ahead(a: PArg, p: seq<nat>): nat
    requires Sub(a, p).Some?
    decreases |p|
  {
    if |p| == 0 then 0
    else
      match a
      case PGroup(_, _, inner, overlay) => InFront(inner, overlay, p[0]) + Ahead(inner[p[0]], p[1..])
      case PUnion(_, _, o) => Ahead(o, p[1..])
  }

  /** v is the argument at path p of a, which lies at offset off of an object. */
  predicate Stands(a: PArg, base: Option<uint64>, off: nat, p: seq<nat>, v: Visit) {
    Sub(a, p) == Some(v.arg) && v.base == base && v.off == off + Ahead(a, p)
  }

  predicate PointsTo(a: PArg, addr: uint64, t: PArg) { a.PPointer? && a.addr == addr && a.pointee == Some(t) }

  // ----- fields -----

  /** Where field j lies when the fields are visited from off on, k fields before the overlay field. */
  function FieldAt(fs: seq<PArg>, start: nat, off: nat, k: int, j: nat): nat
    requires j < |fs|
  {
    if 0 <= k <= j then start + Total(fs[k..j]) else off + Total(fs[..j])
  }

  lemma {:induction false} FieldAtNext(fs: seq<PArg>, start: nat, off: nat, k: int, j: nat)
    requires 0 < j < |fs|
    ensures FieldAt(fs, start, off, k, j) ==
            FieldAt(fs[1..], start, (if k == 0 then start else off) + fs[0].size, k - 1, j - 1)
  {
    assert fs[..j][1..] == fs[1..][..j - 1];
    assert Total(fs[..j]) == fs[0].size + Total(fs[1..][..j - 1]);
    if 0 < k <= j { assert fs[k..j] == fs[1..][k - 1..j - 1]; }
    if k == 0 { assert fs[k..j] == fs[..j]; }
  }

  lemma {:induction false} FieldVisited(fs: seq<PArg>, base: Option<uint64>, start: nat, off: nat, k: int, j: nat,
                                        v: Visit)
    requires j < |fs| && v in VisitArg(fs[j], base, FieldAt(fs, start, off, k, j))
    ensures v in VisitFields(fs, base, start, off, k)
    decreases j
  {
    if j > 0 {
      FieldAtNext(fs, start, off, k, j);
      FieldVisited(fs[1..], base, start, (if k == 0 then start else off) + fs[0].size, k - 1, j - 1, v);
    } else {
      assert FieldAt(fs, start, off, k, 0) == if k == 0 then start else off;
    }
  }

  lemma {:induction false} FieldOf(fs: seq<PArg>, base: Option<uint64>, start: nat, off: nat, k: int, v: Visit)
    returns (j: nat)
    requires v in VisitFields(fs, base, start, off, k)
    ensures j < |fs| && v in VisitArg(fs[j], base, FieldAt(fs, start, off, k, j))
    decreases |fs|
  {
    var o := if k == 0 then start else off;
    if v in VisitArg(fs[0], base, o) {
      j := 0;
      assert FieldAt(fs, start, off, k, 0) == o;
    } else {
      j := FieldOf(fs[1..], base, start, o + fs[0].size, k - 1, v);
      j := j + 1;
      FieldAtNext(fs, start, off, k, j);
    }
  }

  lemma {:induction false} FieldInFront(fs: seq<PArg>, off: nat, overlay: nat, j: nat)
    requires j < |fs|
    ensures FieldAt(fs, off, off, overlay, j) == off + InFront(fs, overlay, j)
  {
  }

  // ----- visits are places -----

  /** Everything inside the argument at the end of a path is visited from the place of that argument on. */
  lemma {:induction false} PathVisited(a: PArg, base: Option<uint64>, off: nat, p: seq<nat>, v: Visit)
    requires Sub(a, p).Some? && v in VisitArg(Sub(a, p).value, base, off + Ahead(a, p))
    ensures v in VisitArg(a, base, off)
    decreases |p|
  {
    if |p| > 0 {
      if a.PGroup? {
        var o := off + InFront(a.inner, a.overlay, p[0]);
        PathVisited(a.inner[p[0]], base, o, p[1..], v);
        FieldInFront(a.inner, off, a.overlay, p[0]);
        FieldVisited(a.inner, base, off, off, a.overlay, p[0], v);
      } else {
        PathVisited(a.option, base, off, p[1..], v);
      }
    }
  }

  lemma {:induction false} Visited(a: PArg, base: Option<uint64>, off: nat)
    ensures Visit(a, base, off) in VisitArg(a, base, off)
  {
    assert VisitArg(a, base, off)[0] == Visit(a, base, off);
  }

  /** Below a pointer that is visited, every argument of the pointee is visited at its place. */
  lemma {:induction false} PointeeVisited(a: PArg, base: Option<uint64>, off: nat, u: Visit, t: PArg, v: Visit)
    requires u in VisitArg(a, base, off) && u.arg.PPointer? && u.arg.pointee == Some(t)
    requires v in VisitArg(t, Some(u.arg.addr), 0)
    ensures v in VisitArg(a, base, off)
    decreases a
  {
    if u == Visit(a, base, off) {
    } else {
      match a {
        case PPointer(_, _, addr, Some(q)) => PointeeVisited(q, Some(addr), 0, u, t, v);
        case PUnion(_, _, o) => PointeeVisited(o, base, off, u, t, v);
        case PGroup(_, _, inner, overlay) =>
          var j := FieldOf(inner, base, off, off, overlay, u);
          PointeeVisited(inner[j], base, FieldAt(inner, off, off, overlay, j), u, t, v);
          FieldVisited(inner, base, off, off, overlay, j, v);
        case _ =>
      }
    }
  }

  /** Every visit is a place: of the argument itself, or of the pointee of a pointer that is visited. */
  lemma {:induction false} Located(a: PArg, base: Option<uint64>, off: nat, v: Visit)
    returns (u: Option<Visit>, p: seq<nat>)
    requires v in VisitArg(a, base, off)
    ensures u.None? ==> Stands(a, base, off, p, v)
    ensures u.Some? ==> u.value in VisitArg(a, base, off) && u.value.arg.PPointer? && u.value.arg.pointee.Some?
                        && Stands(u.value.arg.pointee.value, Some(u.value.arg.addr), 0, p, v)
    decreases a
  {
    if v == Visit(a, base, off) {
      u, p := None, [];
    } else {
      match a {
        case PPointer(_, _, addr, Some(t)) =>
          u, p := Located(t, Some(addr), 0, v);
          if u.None? {
            Visited(a, base, off);
            u := Some(Visit(a, base, off));
          }
        case PUnion(_, _, o) =>
          u, p := Located(o, base, off, v);
          if u.None? { p := [0] + p; }
        case PGroup(_, _, inner, overlay) =>
          var j := FieldOf(inner, base, off, off, overlay, v);
          var o := FieldAt(inner, off, off, overlay, j);
          FieldInFront(inner, off, overlay, j);
          u, p := Located(inner[j], base, o, v);
          if u.None? {
            p := [j] + p;
          } else {
            FieldVisited(inner, base, off, off, overlay, j, u.value);
          }
        case _ =>
      }
    }
  }

  // ----- copyin instructions -----

  /** Arguments that are written: no groups or unions as such, no outputs, padding or empty fields. */
  predicate Kept(f: PArg) {
    && !f.PGroup? && !f.PUnion? && f.dir != Out
    && (f.PConst? ==> !f.pad) && (f.size == 0 ==> f.PConst? && f.bfLen != 0)
  }

  /** A bit field is written at the beginning of its unit. */
  function UnitOff(f: PArg): nat { if f.PConst? then f.unitOff else 0 }

  /** The address of what lies at path p of the pointee at addr. */
  function Place(addr: uint64, t: PArg, p: seq<nat>): int
    requires Sub(t, p).Some?
  {
    (addr + Ahead(t, p) - UnitOff(Sub(t, p).value)) % 0x1_0000_0000_0000_0000
  }

  /** The instruction writes what stands at path p of the pointee at addr, at its place. */
  predicate WritesAt(m: Infos, w: ExecCopyin<Arg>, addr: uint64, t: PArg, p: seq<nat>) {
    && Sub(t, p).Some? && Kept(Sub(t, p).value)
    && w.addr == Place(addr, t, p) && Lower(m, Sub(t, p).value) == Some(w.arg)
  }

  lemma {:induction false} WriteFrom(m: Infos, vs: seq<Visit>, j: nat) returns (v: Visit)
    requires MemoryWrites(m, vs).Some? && j < |MemoryWrites(m, vs).value|
    ensures v in vs && Emitted(v) && Lower(m, v.arg) == Some(MemoryWrites(m, vs).value[j].arg)
    ensures MemoryWrites(m, vs).value[j].addr == AddrOf(v)
    decreases |vs|
  {
    v := vs[0];
    if !Emitted(v) {
      v := WriteFrom(m, vs[1..], j);
    } else if j > 0 {
      v := WriteFrom(m, vs[1..], j - 1);
    }
  }

  lemma {:induction false} WriteOf(m: Infos, vs: seq<Visit>, v: Visit) returns (j: nat)
    requires MemoryWrites(m, vs).Some? && v in vs && Emitted(v)
    ensures j < |MemoryWrites(m, vs).value| && Lower(m, v.arg) == Some(MemoryWrites(m, vs).value[j].arg)
    ensures MemoryWrites(m, vs).value[j].addr == AddrOf(v)
    decreases |vs|
  {
    if vs[0] == v {
      j := 0;
    } else {
      j := WriteOf(m, vs[1..], v);
      if Emitted(vs[0]) { j := j + 1; }
    }
  }

  lemma {:induction false} ArgOf(args: seq<PArg>, v: Visit) returns (i: nat)
    requires v in VisitArgs(args)
    ensures i < |args| && v in VisitArg(args[i], None, 0)
  {
    if v in VisitArg(args[0], None, 0) {
      i := 0;
    } else {
      i := ArgOf(args[1..], v);
      i := i + 1;
    }
  }

  lemma {:induction false} ArgVisited(args: seq<PArg>, i: nat, v: Visit)
    requires i < |args| && v in VisitArg(args[i], None, 0)
    ensures v in VisitArgs(args)
  {
    if i > 0 { ArgVisited(args[1..], i - 1, v); }
  }

  /** The argument, or return value, of the call in which something is visited. */
  lemma {:induction false} RootOf(c: PCall, v: Visit) returns (a: PArg)
    requires v in Visits(c)
    ensures v in VisitArg(a, None, 0)
    ensures forall u :: u in VisitArg(a, None, 0) ==> u in Visits(c)
  {
    if c.ret.Some? && v in VisitArg(c.ret.value, None, 0) {
      a := c.ret.value;
    } else {
      var i := ArgOf(c.args, v);
      a := c.args[i];
      forall u | u in VisitArg(a, None, 0) ensures u in Visits(c) { ArgVisited(c.args, i, u); }
    }
  }

  /** A pointer of the call, with its pointee. */
  ghost predicate Pointer(c: PCall, addr: uint64, t: PArg) {
    exists u :: u in Visits(c) && PointsTo(u.arg, addr, t)
  }

  lemma {:induction false} StandsWrites(m: Infos, w: ExecCopyin<Arg>, v: Visit, addr: uint64, t: PArg, p: seq<nat>)
    requires Stands(t, Some(addr), 0, p, v) && w.addr == AddrOf(v) && Lower(m, v.arg) == Some(w.arg)
    ensures WritesAt(m, w, addr, t, p) <==> Emitted(v)
  {
  }

  lemma {:induction false} PointeeOf(c: PCall, v: Visit) returns (addr: uint64, t: PArg, p: seq<nat>)
    requires v in Visits(c) && v.base.Some?
    ensures Pointer(c, addr, t) && Stands(t, Some(addr), 0, p, v)
  {
    var a := RootOf(c, v);
    var u;
    u, p := Located(a, None, 0, v);
    addr, t := u.value.arg.addr, u.value.arg.pointee.value;
    assert PointsTo(u.value.arg, addr, t);
  }

  lemma {:induction false} PointeeIn(c: PCall, addr: uint64, t: PArg, p: seq<nat>) returns (v: Visit)
    requires Pointer(c, addr, t) && Sub(t, p).Some?
    ensures v in Visits(c) && Stands(t, Some(addr), 0, p, v)
  {
    var u :| u in Visits(c) && PointsTo(u.arg, addr, t);
    var a := RootOf(c, u);
    v := Visit(Sub(t, p).value, Some(addr), Ahead(t, p));
    AtPath(t, Some(addr), p, v);
    PointeeVisited(a, None, 0, u, t, v);
  }

  lemma {:induction false} AtPath(t: PArg, base: Option<uint64>, p: seq<nat>, v: Visit)
    requires Stands(t, base, 0, p, v)
    ensures v in VisitArg(t, base, 0)
  {
    Visited(v.arg, v.base, v.off);
    PathVisited(t, base, 0, p, v);
  }

  /** Every write of a call is the write of a field of a pointee, at its place. */
  lemma {:induction false} WriteHasPlace(m: Infos, c: PCall, j: nat) returns (addr: uint64, t: PArg, p: seq<nat>)
    requires MemoryWrites(m, Visits(c)).Some? && j < |MemoryWrites(m, Visits(c)).value|
    ensures Pointer(c, addr, t) && WritesAt(m, MemoryWrites(m, Visits(c)).value[j], addr, t, p)
  {
    var v := WriteFrom(m, Visits(c), j);
    addr, t, p := PointeeOf(c, v);
    StandsWrites(m, MemoryWrites(m, Visits(c)).value[j], v, addr, t, p);
  }

  /** Every field of a pointee of the call that is to be written is written, at its place. */
  lemma {:induction false} PlaceHasWrite(m: Infos, c: PCall, addr: uint64, t: PArg, p: seq<nat>) returns (j: nat)
    requires MemoryWrites(m, Visits(c)).Some? && Pointer(c, addr, t) && Sub(t, p).Some? && Kept(Sub(t, p).value)
    ensures j < |MemoryWrites(m, Visits(c)).value| && WritesAt(m, MemoryWrites(m, Visits(c)).value[j], addr, t, p)
  {
    var v := PointeeIn(c, addr, t, p);
    KeptEmitted(v);
    j := WriteOf(m, Visits(c), v);
    StandsWrites(m, MemoryWrites(m, Visits(c)).value[j], v, addr, t, p);
  }

  lemma {:induction false} KeptEmitted(v: Visit)
    ensures Emitted(v) <==> v.base.Some? && Kept(v.arg)
  {
  }

  /** In a program, every copyin that is not a checksum writes a field of a pointee of its call, at its place. */
  lemma {:induction false} CopyinHasPlace(z: uint64, cs: seq<PCall>, k: nat, j: nat)
    returns (addr: uint64, t: PArg, p: seq<nat>)
    requires WellFormed(cs) && k < |cs|
    requires SerializeCalls(z, cs).Some? && |SerializeCalls(z, cs).value.calls| == |cs|
    requires SerializeCalls(z, cs[..k]).Some?
    requires j < |SerializeCalls(z, cs).value.calls[k].copyin|
    requires !SerializeCalls(z, cs).value.calls[k].copyin[j].arg.Csum?
    ensures Pointer(cs[k], addr, t)
    ensures WritesAt(SerializeCalls(z, cs[..k]).value.m, SerializeCalls(z, cs).value.calls[k].copyin[j], addr, t, p)
  {
    CallsAreGood(z, cs, k);
    addr, t, p := GoodCopyin(z, SerializeCalls(z, cs[..k]).value.m, AllProduced(cs[..k]), cs[k],
                             SerializeCalls(z, cs).value.calls[k], j);
  }

  lemma {:induction false} GoodCopyin(z: uint64, m: Infos, ids: seq<nat>, c: PCall, e: ExecCall<Arg>, j: nat)
    returns (addr: uint64, t: PArg, p: seq<nat>)
    requires GoodCall(z, m, ids, c, e) && j < |e.copyin| && !e.copyin[j].arg.Csum?
    ensures Pointer(c, addr, t) && WritesAt(m, e.copyin[j], addr, t, p)
  {
    var ws, sums := MemoryWrites(m, Visits(c)).value, Checksums(z, Visits(c), c.csums);
    if j >= |ws| {
      assert e.copyin[j] == sums[j - |ws|];
      ChecksumsAreSums(z, Visits(c), Sort(c.csums, FieldKey(z, Visits(c))));
      assert false;
    }
    addr, t, p := WriteHasPlace(m, c, j);
  }

  /** In a program, every field of a pointee that is to be written is written before its call, at its place. */
  lemma {:induction false} PlaceHasCopyin(z: uint64, cs: seq<PCall>, k: nat, addr: uint64, t: PArg, p: seq<nat>)
    returns (j: nat)
    requires WellFormed(cs) && k < |cs| && Pointer(cs[k], addr, t) && Sub(t, p).Some? && Kept(Sub(t, p).value)
    ensures SerializeCalls(z, cs).Some? && |SerializeCalls(z, cs).value.calls| == |cs|
    ensures SerializeCalls(z, cs[..k]).Some? && j < |SerializeCalls(z, cs).value.calls[k].copyin|
    ensures WritesAt(SerializeCalls(z, cs[..k]).value.m, SerializeCalls(z, cs).value.calls[k].copyin[j], addr, t, p)
  {
    CallsAreGood(z, cs, k);
    j := PlaceHasWrite(SerializeCalls(z, cs[..k]).value.m, cs[k], addr, t, p);
  }

  // ----- copyout instructions -----

  lemma {:induction false} CopyoutOf(z: uint64, n: nat, vs: seq<Visit>, v: Visit) returns (j: nat)
    requires v in vs && Used(v.arg)
    ensures j < |Copyouts(z, n, vs)|
    ensures Copyouts(z, n, vs)[j].addr == Home(z, v) && Copyouts(z, n, vs)[j].size == Wrap(v.arg.size)
    decreases |vs|
  {
    if vs[0] == v {
      j := 0;
    } else if Used(vs[0].arg) {
      j := CopyoutOf(z, n + 1, vs[1..], v);
      j := j + 1;
    } else {
      j := CopyoutOf(z, n, vs[1..], v);
    }
  }

  /** A resource in memory that is used later is read back from the place where it was written. */
  lemma {:induction false} PlaceHasCopyout(z: uint64, cs: seq<PCall>, k: nat, addr: uint64, t: PArg, p: seq<nat>)
    returns (j: nat)
    requires WellFormed(cs) && k < |cs| && Pointer(cs[k], addr, t) && Sub(t, p).Some? && Used(Sub(t, p).value)
    ensures SerializeCalls(z, cs).Some? && |SerializeCalls(z, cs).value.calls| == |cs|
    ensures j < |SerializeCalls(z, cs).value.calls[k].copyout|
    ensures SerializeCalls(z, cs).value.calls[k].copyout[j].addr == Place(addr, t, p)
    ensures SerializeCalls(z, cs).value.calls[k].copyout[j].size == Wrap(Sub(t, p).value.size)
  {
    CallsAreGood(z, cs, k);
    j := GoodCopyout(z, SerializeCalls(z, cs[..k]).value.m, AllProduced(cs[..k]), cs[k],
                     SerializeCalls(z, cs).value.calls[k], addr, t, p);
  }

  lemma {:induction false} GoodCopyout(z: uint64, m: Infos, ids: seq<nat>, c: PCall, e: ExecCall<Arg>, addr: uint64,
                                       t: PArg, p: seq<nat>)
    returns (j: nat)
    requires GoodCall(z, m, ids, c, e) && WellShaped(c)
    requires Pointer(c, addr, t) && Sub(t, p).Some? && Used(Sub(t, p).value)
    ensures j < |e.copyout| && e.copyout[j].addr == Place(addr, t, p)
    ensures e.copyout[j].size == Wrap(Sub(t, p).value.size)
  {
    var v := PointeeIn(c, addr, t, p);
    InArgs(c, v);
    j := CopyoutOf(z, if RetUsed(c) then |ids| + 1 else |ids|, VisitArgs(c.args), v);
    StandsAt(v, addr, t, p);
  }

  lemma {:induction false} InArgs(c: PCall, v: Visit)
    requires WellShaped(c) && v in Visits(c) && v.base.Some?
    ensures v in VisitArgs(c.args)
  {
  }

  lemma {:induction false} StandsAt(v: Visit, addr: uint64, t: PArg, p: seq<nat>)
    requires Stands(t, Some(addr), 0, p, v)
    ensures AddrOf(v) == Place(addr, t, p)
  {
  }

  // ----- what the instructions leave in memory -----

  function FormatOf(f: nat): S.Format
    requires f <= 4
  {
    match f
    case 0 => S.Native
    case 1 => S.BigEndian
    case 2 => S.StrDec
    case 3 => S.StrHex
    case 4 => S.StrOct
  }

  predicate Sized(format: nat, size: nat) { format <= 4 && S.Fits(FormatOf(format), size) }

  /** What copyin stores for an argument that is neither a bit field nor an address nor a checksum. */
  predicate Storable(a: Arg) {
    match a
    case Const(size, format, _, off, len, pid) => Sized(format, size) && off == 0 && len == 0 && pid == 0
    case Result(size, format, _, _, _, _) => Sized(format, size)
    case Data(_, _) => true
    case _ => false
  }

  function StoreOf(off: nat, a: Arg): S.Write
    requires Storable(a)
  {
    match a
    case Const(size, format, v, _, _, _) =>
      S.Write(off, S.Cells(S.Stored(v as int, FormatOf(format), size)), S.Text(FormatOf(format)))
    case Result(size, format, index, _, _, _) =>
      S.Write(off, S.ResultCells(index as int, FormatOf(format), size), S.Text(FormatOf(format)))
    case Data(data, _) => S.Write(off, S.Cells(data), false)
  }

  /** The stores of the instructions, seen from address addr. */
  function Stores(addr: uint64, ws: seq<ExecCopyin<Arg>>): seq<S.Write>
    requires forall i :: 0 <= i < |ws| ==> Storable(ws[i].arg) && addr <= ws[i].addr
  {
    if |ws| == 0 then [] else [StoreOf(ws[0].addr - addr, ws[0].arg)] + Stores(addr, ws[1..])
  }

  /** No pointers, bit fields, overlays, per-process values or big-endian references. */
  predicate Plain(m: Infos, a: PArg)
    decreases a
  {
    match a
    case PConst(size, dir, pad, unitOff, unitSize, format, _, bfOff, bfLen, pid) =>
      bfLen == 0 && (pad || dir == Out
          || (unitOff == 0 && unitSize == size && bfOff == 0 && pid == 0 && Sized(format, size)))
    case PResult(size, dir, _, _, res, format, _, _, _, _) =>
      Sized(format, size) && (res.Some? && dir != Out ==> format != 1 && res.value in m)
    case PPointer(_, _, _, _) => false
    case PData(size, dir, data, _) => dir != Out ==> size == |data|
    case PGroup(size, _, inner, overlay) =>
      overlay == 0 && Total(inner) <= size && forall i :: 0 <= i < |inner| ==> Plain(m, inner[i])
    case PUnion(size, _, o) => Plain(m, o) && o.size <= size
  }

  /** The argument as squashing sees it; a reference by its index. */
  function Flat(m: Infos, a: PArg): S.Arg
    requires Plain(m, a)
    decreases a
  {
    match a
    case PConst(size, dir, pad, _, _, format, v, _, _, _) =>
      if pad || dir == Out then S.OutData(size) else S.Const(size, v, FormatOf(format), false)
    case PResult(size, dir, _, _, res, format, v, _, _, _) =>
      if dir == Out then S.OutData(size)
      else if res.None? then S.Const(size, v, FormatOf(format), false)
      else S.Result(size, FormatOf(format), Wrap(m[res.value].idx) as int, S.In)
    case PData(size, dir, data, _) => if dir == Out then S.OutData(size) else S.Data(data)
    case PGroup(size, _, inner, _) => S.Group(size, FlatAll(m, inner))
    case PUnion(size, _, o) => S.Union(size, false, Flat(m, o))
  }

  function FlatAll(m: Infos, fs: seq<PArg>): (r: seq<S.Arg>)
    requires forall i :: 0 <= i < |fs| ==> Plain(m, fs[i])
    ensures |r| == |fs|
    decreases fs
  {
    if |fs| == 0 then [] else [Flat(m, fs[0])] + FlatAll(m, fs[1..])
  }

  lemma {:induction false} FlatSize(m: Infos, a: PArg)
    requires Plain(m, a)
    ensures S.Squashable(Flat(m, a)) && S.Size(Flat(m, a)) == a.size
    decreases a
  {
    match a
    case PGroup(_, _, inner, _) => FlatSizes(m, inner);
    case PUnion(_, _, o) => FlatSize(m, o);
    case _ =>
  }

  lemma {:induction false} FlatSizes(m: Infos, fs: seq<PArg>)
    requires forall i :: 0 <= i < |fs| ==> Plain(m, fs[i])
    ensures forall i :: 0 <= i < |fs| ==> S.Squashable(FlatAll(m, fs)[i])
    ensures S.Sizes(FlatAll(m, fs)) == Total(fs)
    decreases fs
  {
    if |fs| > 0 {
      FlatSize(m, fs[0]);
      FlatSizes(m, fs[1..]);
    }
  }

  /** The instructions for these visits are the given stores. */
  ghost predicate StoresAre(m: Infos, addr: uint64, vs: seq<Visit>, ws: seq<S.Write>) {
    && MemoryWrites(m, vs).Some?
    && (forall i :: 0 <= i < |MemoryWrites(m, vs).value| ==>
          Storable(MemoryWrites(m, vs).value[i].arg) && addr <= MemoryWrites(m, vs).value[i].addr)
    && Stores(addr, MemoryWrites(m, vs).value) == ws
  }

  /** The same, kept behind a quantifier. */
  ghost predicate Stored(m: Infos, addr: uint64, vs: seq<Visit>, ws: seq<S.Write>) {
    forall u: bool {:trigger Open(u)} :: Open(u) ==> StoresAre(m, addr, vs, ws)
  }

  lemma {:induction false} WritesConcat(m: Infos, us: seq<Visit>, vs: seq<Visit>)
    requires MemoryWrites(m, us).Some? && MemoryWrites(m, vs).Some?
    ensures MemoryWrites(m, us + vs) == Some(MemoryWrites(m, us).value + MemoryWrites(m, vs).value)
    decreases |us|
  {
    if |us| == 0 {
      assert us + vs == vs;
      assert [] + MemoryWrites(m, vs).value == MemoryWrites(m, vs).value;
    } else {
      assert (us + vs)[1..] == us[1..] + vs;
      WritesConcat(m, us[1..], vs);
      if Emitted(us[0]) {
        var w := ExecCopyin(AddrOf(us[0]), Lower(m, us[0].arg).value);
        var x, y := MemoryWrites(m, us[1..]).value, MemoryWrites(m, vs).value;
        assert [w] + (x + y) == ([w] + x) + y;
      }
    }
  }

  lemma {:induction false} StoresConcat(addr: uint64, us: seq<ExecCopyin<Arg>>, vs: seq<ExecCopyin<Arg>>)
    requires forall i :: 0 <= i < |us| ==> Storable(us[i].arg) && addr <= us[i].addr
    requires forall i :: 0 <= i < |vs| ==> Storable(vs[i].arg) && addr <= vs[i].addr
    ensures forall i :: 0 <= i < |us + vs| ==> Storable((us + vs)[i].arg) && addr <= (us + vs)[i].addr
    ensures Stores(addr, us + vs) == Stores(addr, us) + Stores(addr, vs)
    decreases |us|
  {
    if |us| == 0 {
      assert us + vs == vs;
    } else {
      assert (us + vs)[1..] == us[1..] + vs;
      StoresConcat(addr, us[1..], vs);
    }
  }

  lemma {:induction false} StoredConcat(m: Infos, addr: uint64, us: seq<Visit>, vs: seq<Visit>, a: seq<S.Write>,
                                        b: seq<S.Write>)
    requires Stored(m, addr, us, a) && Stored(m, addr, vs, b)
    ensures Stored(m, addr, us + vs, a + b)
  {
    assert Open(true);
    WritesConcat(m, us, vs);
    StoresConcat(addr, MemoryWrites(m, us).value, MemoryWrites(m, vs).value);
  }

  lemma {:induction false} LeafStored(m: Infos, addr: uint64, a: PArg, off: nat)
    requires Plain(m, a) && !a.PGroup? && !a.PUnion? && addr + off + a.size <= 0x1_0000_0000_0000_0000
    requires S.Squashable(Flat(m, a))
    ensures Stored(m, addr, [Visit(a, Some(addr), off)], S.Writes(Flat(m, a), off))
  {
    var v := Visit(a, Some(addr), off);
    KeptEmitted(v);
    assert Open(true);
    if Kept(a) {
      AddressOf(v, addr);
      OneWrite(m, v);
      assert StoresAre(m, addr, [v], S.Writes(Flat(m, a), off));
    } else {
      assert MemoryWrites(m, [v]) == Some([]) by {
        assert [v][1..] == [];
      }
    }
  }

  lemma {:induction false} OneWrite(m: Infos, v: Visit)
    requires Emitted(v) && Lower(m, v.arg).Some?
    ensures MemoryWrites(m, [v]) == Some([ExecCopyin(AddrOf(v), Lower(m, v.arg).value)])
  {
    var none: seq<Visit> := [];
    assert [v][1..] == none && MemoryWrites(m, none) == Some([]);
    var w := ExecCopyin(AddrOf(v), Lower(m, v.arg).value);
    assert [w] + [] == [w];
  }

  lemma {:induction false} AddressOf(v: Visit, addr: uint64)
    requires v.base == Some(addr) && addr + v.off + v.arg.size <= 0x1_0000_0000_0000_0000 && v.arg.size > 0
    requires v.arg.PConst? ==> v.arg.unitOff == 0
    ensures AddrOf(v) == addr + v.off
  {
  }

  /** The instructions for an argument are the stores that squashing is about. */
  lemma {:induction false} ArgStored(m: Infos, addr: uint64, a: PArg, off: nat)
    requires Plain(m, a) && addr + off + a.size <= 0x1_0000_0000_0000_0000
    ensures S.Squashable(Flat(m, a)) && Stored(m, addr, VisitArg(a, Some(addr), off), S.Writes(Flat(m, a), off))
    decreases a
  {
    FlatSize(m, a);
    match a {
      case PGroup(_, _, inner, _) =>
        FlatSizes(m, inner);
        FieldsStored(m, addr, inner, off, off, 0);
        HeadStored(m, addr, a, off, VisitFields(inner, Some(addr), off, off, 0), S.WritesAll(FlatAll(m, inner), off));
      case PUnion(_, _, o) =>
        ArgStored(m, addr, o, off);
        HeadStored(m, addr, a, off, VisitArg(o, Some(addr), off), S.Writes(Flat(m, o), off));
      case PPointer(_, _, _, _) =>
      case _ =>
        LeafStored(m, addr, a, off);
        assert VisitArg(a, Some(addr), off) == [Visit(a, Some(addr), off)];
    }
  }

  /** A group or union is not written itself. */
  lemma {:induction false} HeadStored(m: Infos, addr: uint64, a: PArg, off: nat, vs: seq<Visit>, ws: seq<S.Write>)
    requires (a.PGroup? || a.PUnion?) && Stored(m, addr, vs, ws)
    ensures Stored(m, addr, [Visit(a, Some(addr), off)] + vs, ws)
  {
    assert Open(true);
    assert ([Visit(a, Some(addr), off)] + vs)[1..] == vs;
  }

  lemma {:induction false} FieldsStored(m: Infos, addr: uint64, fs: seq<PArg>, start: nat, off: nat, k: int)
    requires (forall i :: 0 <= i < |fs| ==> Plain(m, fs[i])) && addr + off + Total(fs) <= 0x1_0000_0000_0000_0000
    requires k <= 0 && (k == 0 ==> start == off)
    ensures forall i :: 0 <= i < |fs| ==> S.Squashable(FlatAll(m, fs)[i])
    ensures Stored(m, addr, VisitFields(fs, Some(addr), start, off, k), S.WritesAll(FlatAll(m, fs), off))
    decreases fs
  {
    FlatSizes(m, fs);
    if |fs| > 0 {
      var o := off + fs[0].size;
      ArgStored(m, addr, fs[0], off);
      FieldsStored(m, addr, fs[1..], start, o, k - 1);
      FieldsWrites(m, fs, off, o);
      FieldsVisits(fs, Some(addr), start, off, o, k);
      StoredConcat(m, addr, VisitArg(fs[0], Some(addr), off), VisitFields(fs[1..], Some(addr), start, o, k - 1),
                   S.Writes(Flat(m, fs[0]), off), S.WritesAll(FlatAll(m, fs[1..]), o));
    }
  }

  lemma {:induction false} FieldsVisits(fs: seq<PArg>, base: Option<uint64>, start: nat, off: nat, o: nat, k: int)
    requires |fs| > 0 && (k == 0 ==> start == off) && o == off + fs[0].size
    ensures VisitFields(fs, base, start, off, k) ==
            VisitArg(fs[0], base, off) + VisitFields(fs[1..], base, start, o, k - 1)
  {
  }

  lemma {:induction false} FieldsWrites(m: Infos, fs: seq<PArg>, off: nat, o: nat)
    requires |fs| > 0 && (forall i :: 0 <= i < |fs| ==> Plain(m, fs[i])) && o == off + fs[0].size
    ensures S.Squashable(Flat(m, fs[0])) && forall i :: 0 <= i < |fs| ==> S.Squashable(FlatAll(m, fs)[i])
    ensures forall i :: 0 <= i < |fs| - 1 ==> S.Squashable(FlatAll(m, fs[1..])[i])
    ensures S.WritesAll(FlatAll(m, fs), off) ==
            S.Writes(Flat(m, fs[0]), off) + S.WritesAll(FlatAll(m, fs[1..]), o)
  {
    FlatSize(m, fs[0]);
    FlatSizes(m, fs);
    FlatSizes(m, fs[1..]);
    assert FlatAll(m, fs)[1..] == FlatAll(m, fs[1..]) && FlatAll(m, fs)[0] == Flat(m, fs[0]);
  }

  /** Over n zeroed bytes at addr, the instructions for a pointee leave exactly its meaning. */
  lemma {:induction false} PointeeMemory(m: Infos, addr: uint64, t: PArg, n: nat)
    requires Plain(m, t) && t.size <= n && addr + t.size <= 0x1_0000_0000_0000_0000
    ensures S.Squashable(Flat(m, t)) && |S.Meaning(Flat(m, t))| == t.size
    ensures var ws := S.Writes(Flat(m, t), 0);
            && StoresAre(m, addr, VisitArg(t, Some(addr), 0), ws) && S.Inside(ws, n)
            && S.Run(S.Zeros(n), ws) == S.Meaning(Flat(m, t)) + S.Zeros(n - t.size)
  {
    FlatSize(m, t);
    ArgStored(m, addr, t, 0);
    assert Open(true);
    S.MemoryIs(Flat(m, t), n);
  }

  lemma {:induction false} WritesSplit(m: Infos, us: seq<Visit>, vs: seq<Visit>)
    requires MemoryWrites(m, us + vs).Some?
    ensures MemoryWrites(m, us).Some? && MemoryWrites(m, vs).Some?
    ensures MemoryWrites(m, us + vs).value == MemoryWrites(m, us).value + MemoryWrites(m, vs).value
    decreases |us|
  {
    if |us| == 0 {
      assert us + vs == vs;
    } else {
      assert (us + vs)[1..] == us[1..] + vs;
      WritesSplit(m, us[1..], vs);
    }
    WritesConcat(m, us, vs);
  }

  lemma {:induction false} ArgVisits(args: seq<PArg>, i: nat) returns (us: seq<Visit>, vs: seq<Visit>)
    requires i < |args|
    ensures VisitArgs(args) == us + VisitArg(args[i], None, 0) + vs
  {
    if i == 0 {
      us, vs := [], VisitArgs(args[1..]);
    } else {
      us, vs := ArgVisits(args[1..], i - 1);
      FrontFirst(VisitArg(args[0], None, 0), us, VisitArg(args[i], None, 0), vs);
      us := VisitArg(args[0], None, 0) + us;
    }
  }

  lemma {:induction false} FrontFirst<T>(a: seq<T>, b: seq<T>, c: seq<T>, d: seq<T>)
    ensures a + (b + c + d) == (a + b) + c + d
  {
  }

  /** The visits of a pointee stand together among the visits of the call. */
  lemma {:induction false} PointeeVisits(c: PCall, i: nat, t: PArg) returns (us: seq<Visit>, vs: seq<Visit>)
    requires i < |c.args| && c.args[i].PPointer? && c.args[i].pointee == Some(t)
    ensures Visits(c) == us + VisitArg(t, Some(c.args[i].addr), 0) + vs
  {
    us, vs := ArgVisits(c.args, i);
    var a := c.args[i];
    var mid := VisitArg(t, Some(a.addr), 0);
    var ret := if c.ret.Some? then VisitArg(c.ret.value, None, 0) else [];
    assert VisitArg(a, None, 0) == [Visit(a, None, 0)] + mid;
    assert ret + (us + ([Visit(a, None, 0)] + mid) + vs) == (ret + us + [Visit(a, None, 0)]) + mid + vs;
    us := ret + us + [Visit(a, None, 0)];
  }

  lemma {:induction false} SliceOf(m: Infos, us: seq<Visit>, mid: seq<Visit>, vs: seq<Visit>, ws: seq<ExecCopyin<Arg>>,
                                   all: seq<ExecCopyin<Arg>>)
    returns (lo: nat, hi: nat)
    requires MemoryWrites(m, us + mid + vs) == Some(ws) && ws <= all
    ensures lo <= hi <= |all| && MemoryWrites(m, mid) == Some(all[lo..hi])
  {
    WritesSplit(m, us + mid, vs);
    WritesSplit(m, us, mid);
    lo := |MemoryWrites(m, us).value|;
    hi := lo + |MemoryWrites(m, mid).value|;
    assert all[lo..hi] == ws[lo..hi];
  }

  /** The instructions leave this memory behind, over n zeroed bytes at addr. */
  ghost predicate Leaves(addr: uint64, ws: seq<ExecCopyin<Arg>>, n: nat, cells: seq<S.Cell>) {
    && (forall i :: 0 <= i < |ws| ==> Storable(ws[i].arg) && addr <= ws[i].addr)
    && S.Inside(Stores(addr, ws), n) && S.Run(S.Zeros(n), Stores(addr, ws)) == cells
  }

  /**
   Among the copyins of a call those for the pointee of an argument stand together, and leave in
   zeroed memory exactly what the pointee means.
   */
  lemma {:induction false} CallMemory(z: uint64, m: Infos, ids: seq<nat>, c: PCall, e: ExecCall<Arg>, i: nat, t: PArg,
                                      n: nat)
    returns (lo: nat, hi: nat)
    requires GoodCall(z, m, ids, c, e) && i < |c.args| && c.args[i].PPointer? && c.args[i].pointee == Some(t)
    requires Plain(m, t) && t.size <= n && c.args[i].addr + t.size <= 0x1_0000_0000_0000_0000
    ensures lo <= hi <= |e.copyin| && S.Squashable(Flat(m, t)) && |S.Meaning(Flat(m, t))| == t.size
    ensures Leaves(c.args[i].addr, e.copyin[lo..hi], n, S.Meaning(Flat(m, t)) + S.Zeros(n - t.size))
  {
    var us, vs := PointeeVisits(c, i, t);
    lo, hi := SliceOf(m, us, VisitArg(t, Some(c.args[i].addr), 0), vs, MemoryWrites(m, Visits(c)).value, e.copyin);
    PointeeMemory(m, c.args[i].addr, t, n);
  }

  lemma {:induction false} ProgramMemory(z: uint64, cs: seq<PCall>, k: nat, i: nat, t: PArg, n: nat)
    returns (lo: nat, hi: nat)
    requires WellFormed(cs) && k < |cs| && i < |cs[k].args| && cs[k].args[i].PPointer?
    requires cs[k].args[i].pointee == Some(t) && t.size <= n
    requires cs[k].args[i].addr + t.size <= 0x1_0000_0000_0000_0000
    requires SerializeCalls(z, cs[..k]).Some? ==> Plain(SerializeCalls(z, cs[..k]).value.m, t)
    ensures SerializeCalls(z, cs).Some? && |SerializeCalls(z, cs).value.calls| == |cs|
    ensures SerializeCalls(z, cs[..k]).Some? && Plain(SerializeCalls(z, cs[..k]).value.m, t)
    ensures lo <= hi <= |SerializeCalls(z, cs).value.calls[k].copyin|
    ensures var a := Flat(SerializeCalls(z, cs[..k]).value.m, t);
            && S.Squashable(a) && |S.Meaning(a)| == t.size
            && Leaves(cs[k].args[i].addr, SerializeCalls(z, cs).value.calls[k].copyin[lo..hi], n,
                      S.Meaning(a) + S.Zeros(n - t.size))
  {
    CallsAreGood(z, cs, k);
    lo, hi := CallMemory(z, SerializeCalls(z, cs[..k]).value.m, AllProduced(cs[..k]), cs[k],
                         SerializeCalls(z, cs).value.calls[k], i, t, n);
  }
}
