/**
 Runtime configuration changes during a test and their undoing (executor/common_ext.h). Files are a
 map from paths to contents; every read or write may fail unless the file system is reliable.
 */
module ConfigUndo {
  import opened Basics
  import opened Counting

  const BUFFER: nat := 512
  const NUL: char := '\0'

  // ----- C strings -----

  /** The C string in a buffer: everything before the first NUL. */
  function CString(s: seq<char>): (r: string)
    ensures r <= s && NUL !in r && (|r| < |s| ==> s[|r|] == NUL)
  {
    if |s| == 0 || s[0] == NUL then []
    else
      var r := CString(s[1..]);
      assert s == [s[0]] + s[1..];
      [s[0]] + r
  }

  predicate Space(c: char) { c == ' ' || c == '\t' || c == '\r' || c == '\n' }

  function TrimEnd(s: string): string {
    if |s| > 0 && Space(s[|s| - 1]) then TrimEnd(s[..|s| - 1]) else s
  }

  function TrimStart(s: string): string {
    if |s| > 0 && Space(s[0]) then TrimStart(s[1..]) else s
  }

  function Trim(s: string): string { TrimStart(TrimEnd(s)) }

  lemma {:induction false} TrimStartIs(s: string)
    ensures exists k :: 0 <= k <= |s| && TrimStart(s) == s[k..] && forall i :: 0 <= i < k ==> Space(s[i])
    ensures var r := TrimStart(s); |r| > 0 ==> !Space(r[0]) && r[|r| - 1] == s[|s| - 1]
  {
    if |s| > 0 && Space(s[0]) {
      TrimStartIs(s[1..]);
      var k :| 0 <= k <= |s[1..]| && TrimStart(s[1..]) == s[1..][k..] && forall i :: 0 <= i < k ==> Space(s[1..][i]);
      assert s[1..][k..] == s[k + 1..];
      forall i | 0 <= i < k + 1 ensures Space(s[i]) { assert i > 0 ==> s[i] == s[1..][i - 1]; }
      assert 0 <= k + 1 <= |s| && TrimStart(s) == s[k + 1..];
    } else {
      assert s[0..] == s;
      assert TrimStart(s) == s[0..];
    }
  }

  lemma {:induction false} TrimEndIs(s: string)
    ensures exists k :: 0 <= k <= |s| && TrimEnd(s) == s[..k] && forall i :: k <= i < |s| ==> Space(s[i])
    ensures var r := TrimEnd(s); |r| > 0 ==> !Space(r[|r| - 1])
  {
    if |s| > 0 && Space(s[|s| - 1]) {
      var t := s[..|s| - 1];
      TrimEndIs(t);
      var k :| 0 <= k <= |t| && TrimEnd(t) == t[..k] && forall i :: k <= i < |t| ==> Space(t[i]);
      assert t[..k] == s[..k];
      forall i | k <= i < |s| ensures Space(s[i]) { assert i < |t| ==> s[i] == t[i]; }
      assert 0 <= k <= |s| && TrimEnd(s) == s[..k];
    } else {
      assert s[..|s|] == s;
      assert TrimEnd(s) == s[..|s|];
    }
  }

  /** Trimming leaves no white space at either end, so trimming again changes nothing. */
  lemma {:induction false} TrimTwice(s: string)
    ensures Trim(Trim(s)) == Trim(s)
  {
    TrimEndIs(s);
    TrimStartIs(TrimEnd(s));
  }

  /** Trimming takes exactly the white space off both ends. */
  lemma {:induction false} TrimIs(s: string) returns (i: nat, j: nat)
    ensures i <= j <= |s| && Trim(s) == s[i..j] && (i < j ==> !Space(s[i]) && !Space(s[j - 1]))
    ensures forall k :: 0 <= k < i || j <= k < |s| ==> Space(s[k])
  {
    TrimEndIs(s);
    var t := TrimEnd(s);
    j :| 0 <= j <= |s| && t == s[..j] && forall k :: j <= k < |s| ==> Space(s[k]);
    TrimStartIs(t);
    i :| 0 <= i <= |t| && TrimStart(t) == t[i..] && forall k :: 0 <= k < i ==> Space(t[k]);
    TrimEnds(s, t, i, j);
  }

  lemma {:induction false} TrimEnds(s: string, t: string, i: nat, j: nat)
    requires i <= j <= |s| && t == s[..j] && forall k :: 0 <= k < i ==> Space(t[k])
    ensures t[i..] == s[i..j] && forall k :: 0 <= k < i ==> Space(s[k])
    ensures i < j ==> t[i..][0] == s[i] && t[|t| - 1] == s[j - 1]
  {
    forall k | 0 <= k < i ensures Space(s[k]) { assert s[k] == t[k]; }
  }

  lemma {:induction false} CStringIs(s: seq<char>, r: string)
    requires r <= s && NUL !in r && |r| < |s| && s[|r|] == NUL
    ensures CString(s) == r
  {
    if |r| > 0 {
      assert s[0] == r[0] && r[0] in r;
      assert r == [r[0]] + r[1..] && r[1..] <= s[1..] && s[1..][|r| - 1] == NUL;
      CStringIs(s[1..], r[1..]);
    }
  }

  method StrLen(a: array<char>) returns (n: nat)
    requires NUL in a[..]
    ensures n == |CString(a[..])| < a.Length && a[n] == NUL
  {
    ghost var s := a[..];
    n := 0;
    assert s[0..] == s;
    while a[n] != NUL
      invariant n < a.Length && NUL !in s[..n] && NUL in s[n..]
      decreases a.Length - n
    {
      assert s[n..] == [s[n]] + s[n + 1..];
      assert s[..n + 1] == s[..n] + [s[n]];
      n := n + 1;
    }
    CStringIs(s, s[..n]);
  }

  /** kconfuzz_trim, in place on a NUL-terminated buffer */
  method TrimInPlace(a: array<char>)
    requires NUL in a[..]
    modifies a
    ensures CString(a[..]) == Trim(old(CString(a[..])))
  {
    ghost var s := CString(a[..]);
    var len := StrLen(a);
    assert s[..len] == s;
    while len > 0 && Space(a[len - 1])
      invariant len <= |s| && len < a.Length && a[len] == NUL && a[..len] == s[..len]
      invariant TrimEnd(s[..len]) == TrimEnd(s)
    {
      assert s[..len][len - 1] == a[len - 1] && s[..len][..len - 1] == s[..len - 1];
      a[len - 1] := NUL;
      len := len - 1;
    }
    ghost var t := TrimEnd(s);
    assert s[..len] == t;
    assert NUL !in t;
    SkipAndMove(a, len, t);
  }

  /** The second half: leading white space is skipped and the rest moved to the front. */
  method SkipAndMove(a: array<char>, len: nat, ghost t: string)
    requires len < a.Length && a[len] == NUL && a[..len] == t && NUL !in t
    modifies a
    ensures CString(a[..]) == TrimStart(t)
  {
    var start := 0;
    assert t[0..] == t;
    while a[start] != NUL && Space(a[start])
      invariant start <= len && TrimStart(t[start..]) == TrimStart(t)
      decreases len - start
    {
      assert start < len;
      assert t[start..][0] == a[start] && t[start..][1..] == t[start + 1..];
      start := start + 1;
    }
    ghost var r := t[start..];
    assert start < len ==> t[start] == a[start] && t[start] in t;
    assert TrimStart(r) == r;
    var k := 0;
    while k < len - start
      invariant 0 <= k <= len - start && a[..k] == r[..k]
      invariant forall j :: start + k <= j <= len ==> a[j] == old(a[j])
    {
      assert old(a[..len])[start + k] == old(a[start + k]);
      a[k] := a[start + k];
      k := k + 1;
    }
    a[k] := NUL;
    assert a[..k] == r[..k] == r;
    CStringIs(a[..], r);
  }

  // ----- undoing -----

  datatype Entry = Entry(path: string, values: seq<string>)

  type Files = map<string, string>

  /** What kconfuzz_readback makes of a file's contents. */
  function Seen(content: string): string {
    Trim(CString(if |content| < BUFFER then content else content[..BUFFER - 1]))
  }

  predicate Within(order: seq<nat>, n: nat) {
    forall i :: 0 <= i < |order| ==> order[i] < n
  }

  /** The first saved parameter that lives at the path. */
  function FirstOn(entries: seq<Entry>, order: seq<nat>, path: string): Option<nat>
    requires Within(order, |entries|)
  {
    if |order| == 0 then None
    else if entries[order[0]].path == path then Some(order[0])
    else FirstOn(entries, order[1..], path)
  }

  lemma {:induction false} FirstOnSnoc(entries: seq<Entry>, order: seq<nat>, p: nat, path: string)
    requires p < |entries| && Within(order, |entries|)
    ensures FirstOn(entries, order + [p], path) ==
            match FirstOn(entries, order, path)
            case Some(q) => Some(q)
            case None => if entries[p].path == path then Some(p) else None
  {
    if |order| > 0 {
      assert (order + [p])[1..] == order[1..] + [p];
      FirstOnSnoc(entries, order[1..], p, path);
    }
  }

  lemma {:induction false} FirstOnIn(entries: seq<Entry>, order: seq<nat>, path: string)
    requires Within(order, |entries|)
    ensures var f := FirstOn(entries, order, path); f.Some? ==> f.value in order && entries[f.value].path == path
    ensures FirstOn(entries, order, path).None? ==> forall i :: 0 <= i < |order| ==> entries[order[i]].path != path
  {
    if |order| > 0 {
      FirstOnIn(entries, order[1..], path);
      assert order == [order[0]] + order[1..];
    }
  }

  /** Saved values written back, last saved first. */
  function Undo(entries: seq<Entry>, files: Files, order: seq<nat>, saved: seq<string>): Files
    requires |saved| == |entries| && Within(order, |entries|)
    decreases |order|
  {
    if |order| == 0 then files
    else
      var p := order[|order| - 1];
      Undo(entries, files[entries[p].path := saved[p]], order[..|order| - 1], saved)
  }

  /** Undoing gives each path the value saved first for it and leaves all other paths alone. */
  lemma {:induction false} UndoIs(entries: seq<Entry>, files: Files, order: seq<nat>, saved: seq<string>, path: string)
    requires |saved| == |entries| && Within(order, |entries|)
    ensures var after := Undo(entries, files, order, saved);
            match FirstOn(entries, order, path)
            case Some(p) => path in after && p < |saved| && after[path] == saved[p]
            case None => (path in after <==> path in files) && (path in files ==> after[path] == files[path])
    decreases |order|
  {
    if |order| > 0 {
      var n := |order| - 1;
      var p := order[n];
      UndoIs(entries, files[entries[p].path := saved[p]], order[..n], saved, path);
      FirstOnSnoc(entries, order[..n], p, path);
      assert order == order[..n] + [p];
      FirstOnIn(entries, order[..n], path);
    }
  }

  lemma {:induction false} UndoSame(entries: seq<Entry>, files: Files, order: seq<nat>, saved: seq<string>,
                                    saved': seq<string>)
    requires |saved| == |saved'| == |entries| && Within(order, |entries|)
             && (forall i :: 0 <= i < |order| ==> saved'[order[i]] == saved[order[i]])
    ensures Undo(entries, files, order, saved') == Undo(entries, files, order, saved)
    decreases |order|
  {
    if |order| > 0 {
      var p := order[|order| - 1];
      UndoSame(entries, files[entries[p].path := saved[p]], order[..|order| - 1], saved, saved');
    }
  }

  /** before holds, for each path with a saved parameter, the value saved first for it. */
  ghost predicate Remembers(entries: seq<Entry>, order: seq<nat>, saved: seq<string>, before: Files)
    requires |saved| == |entries| && Within(order, |entries|)
  {
    forall path {:trigger path in before} {:trigger FirstOn(entries, order, path)} ::
      match FirstOn(entries, order, path)
      case Some(p) => p < |saved| && path in before && before[path] == saved[p]
      case None => path !in before
  }

  lemma {:induction false} RemembersSnoc(entries: seq<Entry>, order: seq<nat>, saved: seq<string>, before: Files,
                                         p: nat, value: string)
    requires |saved| == |entries| && p < |entries| && p !in order && Within(order, |entries|)
    requires Remembers(entries, order, saved, before)
    ensures var path := entries[p].path;
            Remembers(entries, order + [p], saved[p := value], if path in before then before else before[path := value])
  {
    var path := entries[p].path;
    var before' := if path in before then before else before[path := value];
    forall x ensures match FirstOn(entries, order + [p], x)
                     case Some(q) => q < |saved| && x in before' && before'[x] == saved[p := value][q]
                     case None => x !in before'
    {
      FirstOnSnoc(entries, order, p, x);
      FirstOnIn(entries, order, x);
      assert x in before || x !in before;
    }
  }

  /** The index of the value an action writes; None if it writes nothing. */
  function Selected(e: Entry, flip: bool, value: nat, now: Option<string>): Option<nat> {
    if !flip then (if value < |e.values| then Some(value) else None)
    else
      match (if now.Some? then IndexOf(e.values, now.value) else None)
      case Some(i) => if |e.values| > 0 then Some((i + 1) % |e.values|) else None
      case None => if value < |e.values| then Some(value) else if |e.values| > 0 then Some(0) else None
  }

  function IndexOf(values: seq<string>, v: string): (r: Option<nat>)
    ensures r.Some? ==> r.value < |values| && values[r.value] == v && v !in values[..r.value]
    ensures r.None? ==> v !in values
  {
    if |values| == 0 then None
    else if values[0] == v then Some(0)
    else
      match IndexOf(values[1..], v)
      case None =>
        assert values == [values[0]] + values[1..];
        None
      case Some(i) =>
        assert values[..i + 1] == [values[0]] + values[1..][..i];
        Some(i + 1)
  }

  /** Whatever is selected is one of the entry's values. */
  lemma {:induction false} SelectedInRange(e: Entry, flip: bool, value: nat, now: Option<string>)
    ensures var s := Selected(e, flip, value, now); s.Some? ==> s.value < |e.values|
  {
  }

  /** Flipping goes to the next listed value, and from the last one to the first. */
  lemma {:induction false} FlipNext(e: Entry, i: nat, value: nat)
    requires i < |e.values| && e.values[i] !in e.values[..i]
    ensures Selected(e, true, value, Some(e.values[i])) == Some(if i + 1 < |e.values| then i + 1 else 0)
  {
    FirstIndex(e.values, e.values[i], i);
    var n := |e.values|;
    if i + 1 == n { assert n % n == 0; } else { assert (i + 1) % n == i + 1; }
  }

  /** From anywhere else it goes to the value asked for, or else to the first. */
  lemma {:induction false} FlipFrom(e: Entry, value: nat, now: Option<string>)
    requires |e.values| > 0 && (now.None? || now.value !in e.values)
    ensures Selected(e, true, value, now) == Some(if value < |e.values| then value else 0)
  {
    if now.Some? { assert IndexOf(e.values, now.value).None?; }
  }

  // ----- the code -----

  /** kconfuzz_value_index; None stands for -1 */
  method ValueIndex(e: Entry, value: string) returns (r: Option<nat>)
    ensures r == IndexOf(e.values, value)
  {
    var i := 0;
    while i < |e.values|
      invariant 0 <= i <= |e.values| && value !in e.values[..i]
    {
      if e.values[i] == value {
        FirstIndex(e.values, value, i);
        return Some(i);
      }
      i := i + 1;
    }
    assert e.values[..i] == e.values;
    return None;
  }

  lemma {:induction false} FirstIndex(values: seq<string>, v: string, i: nat)
    requires i < |values| && values[i] == v && v !in values[..i]
    ensures IndexOf(values, v) == Some(i)
  {
    if i > 0 {
      assert values[1..][i - 1] == v && values[..i][0] == values[0];
      assert values[1..][..i - 1] == values[..i][1..];
      FirstIndex(values[1..], v, i - 1);
    }
  }

  /** The number of the value that is written, if it is in range. */
  method Select(e: Entry, flip: bool, value: nat, now: Option<string>) returns (selected: nat)
    ensures Selected(e, flip, value, now) == if selected < |e.values| then Some(selected) else None
  {
    selected := value;
    if flip {
      if now.Some? {
        var index := ValueIndex(e, now.value);
        if index.Some? {
          selected := (index.value + 1) % |e.values|;
        } else if selected >= |e.values| {
          selected := 0;
        }
      } else if selected >= |e.values| {
        selected := 0;
      }
    }
  }

  /** The undo log: parameters in the order they were saved, each once, and marked as saved. */
  ghost predicate Log(n: nat, order: seq<nat>, valid: seq<bool>) {
    && |valid| == n && Within(order, n) && Distinct(order)
    && (forall p: nat :: p < n ==> (valid[p] <==> p in order))
  }

  lemma {:induction false} LogSnoc(n: nat, order: seq<nat>, valid: seq<bool>, p: nat)
    requires Log(n, order, valid) && p < n && !valid[p]
    ensures Log(n, order + [p], valid[p := true]) && |order| < n
  {
    FewerThan(order, n, p);
  }

  lemma {:induction false} LogPop(n: nat, order: seq<nat>, valid: seq<bool>)
    requires Log(n, order, valid) && |order| > 0
    ensures var p := order[|order| - 1]; p < n && valid[p] && Log(n, order[..|order| - 1], valid[p := false])
  {
    var m := |order| - 1;
    var p := order[m];
    assert order == order[..m] + [p];
    assert p in order;
    forall q: nat | q < n ensures valid[p := false][q] <==> q in order[..m] {
      assert q in order <==> q in order[..m] || q == p;
    }
  }

  class Config {
    const entries: seq<Entry>
    const reliable: bool
    const saved: array<string>
    const valid: array<bool>
    const order: array<nat>
    var count: nat
    var files: Files
    ghost var before: Files

    ghost predicate Valid()
      reads this, saved, valid, order
    {
      && saved.Length == valid.Length == order.Length == |entries| && count <= |entries|
      && Log(|entries|, order[..count], valid[..])
      && Remembers(entries, order[..count], saved[..], before)
      && (forall i :: 0 <= i < count ==> entries[order[i]].path in files)
    }

    constructor (entries: seq<Entry>, reliable: bool, files: Files)
      ensures this.entries == entries && this.reliable == reliable && this.files == files
      ensures Valid() && before == map[] && count == 0
    {
      this.entries, this.reliable, this.files := entries, reliable, files;
      saved := new string[|entries|](_ => "");
      valid := new bool[|entries|](_ => false);
      order := new nat[|entries|](_ => 0);
      count, before := 0, map[];
    }

    /** Anyone else may change the contents of existing files. */
    method OtherWrite(path: string, content: string)
      requires Valid()
      modifies this`files
      ensures Valid() && files == if path in old(files) then old(files)[path := content] else old(files)
    {
      if path in files { files := files[path := content]; }
    }

    /** kconfuzz_readback */
    method Readback(path: string) returns (r: Option<string>)
      ensures r.Some? ==> path in files && r.value == Seen(files[path])
      ensures reliable && path in files ==> r.Some?
    {
      var fails: bool := *;
      if path !in files || (!reliable && fails) { return None; }
      var content := files[path];
      var out := Fill(content);
      TrimInPlace(out);
      return Some(CString(out[..]));
    }

    /** read, and the terminating NUL */
    method Fill(content: string) returns (out: array<char>)
      ensures fresh(out) && NUL in out[..] && Trim(CString(out[..])) == Seen(content)
    {
      var n := if |content| < BUFFER then |content| else BUFFER - 1;
      out := new char[BUFFER](i => if 0 <= i < n && i < |content| then content[i] else NUL);
      ReadString(out[..], content, n);
      assert |content| < BUFFER ==> content[..n] == content;
      assert out[..][n] == NUL;
    }

    /** write_file */
    method Write(path: string, content: string) returns (ok: bool)
      modifies this`files
      ensures files == if ok then old(files)[path := content] else old(files)
      ensures ok ==> path in old(files)
      ensures reliable && path in old(files) ==> ok
    {
      var fails: bool := *;
      if path !in files || (!reliable && fails) { return false; }
      files := files[path := content];
      return true;
    }

    /** The value a restorable action finds is saved, once per parameter. */
    method Save(p: nat)
      requires Valid() && p < |entries| && !valid[p]
      modifies this`count, this`before, saved, valid, order
      ensures Valid()
      ensures var path := entries[p].path;
              before == if path in old(before) || !valid[p] then old(before) else old(before)[path := Seen(files[path])]
      ensures valid[p] ==> entries[p].path in files && order[..count] == old(order[..count]) + [p]
      ensures !valid[p] ==> order[..count] == old(order[..count])
      ensures reliable && entries[p].path in files ==> valid[p]
    {
      var v := Readback(entries[p].path);
      if v.None? { return; }
      Note(p, v.value);
    }

    method Note(p: nat, v: string)
      requires Valid() && p < |entries| && !valid[p] && entries[p].path in files
      modifies this`count, this`before, saved, valid, order
      ensures Valid() && valid[p] && order[..count] == old(order[..count]) + [p]
      ensures before == if entries[p].path in old(before) then old(before) else old(before)[entries[p].path := v]
    {
      ghost var o, sv, va := order[..count], saved[..], valid[..];
      LogSnoc(|entries|, o, va, p);
      RemembersSnoc(entries, o, sv, before, p, v);
      saved[p] := v;
      valid[p] := true;
      assert saved[..] == sv[p := v] && valid[..] == va[p := true];
      if count < |entries| {
        order[count] := p;
        count := count + 1;
      }
      assert order[..count] == o + [p];
      if entries[p].path !in before { before := before[entries[p].path := v]; }
    }

    predicate Restorable(param: nat, value: nat, noRestore: bool, flip: bool) {
      param < |entries| && !noRestore && (flip || value < |entries[param].values|)
    }

    /** kconfuzz_apply_config_action */
    method Apply(param: nat, value: nat, noRestore: bool, flip: bool) returns (written: Option<nat>)
      requires Valid()
      modifies this, saved, valid, order
      ensures Valid()
      ensures written.Some? ==>
                && param < |entries| && written.value < |entries[param].values|
                && files == old(files)[entries[param].path := entries[param].values[written.value]]
      ensures written.None? ==> files == old(files)
      ensures written.Some? ==> entries[param].path in old(files)
      ensures !noRestore && !Restorable(param, value, noRestore, flip) ==> before == old(before) && files == old(files)
      ensures param >= |entries| || noRestore ==> before == old(before)
      ensures param < |entries| ==>
                var path := entries[param].path;
                before == old(before) || (path !in old(before) && path in old(files) &&
                                          before == old(before)[path := Seen(old(files)[path])])
      ensures reliable && Restorable(param, value, noRestore, flip) && entries[param].path in old(files) ==>
                entries[param].path in before
      ensures reliable && param < |entries| && entries[param].path in old(files) ==>
                written == Selected(entries[param], flip, value, Some(Seen(old(files)[entries[param].path])))
    {
      if param >= |entries| { return None; }
      var e := entries[param];
      if !flip && value >= |e.values| { return None; }
      if !noRestore && !valid[param] { Save(param); }
      SavedMeansRemembered(param);
      var now := None;
      if flip { now := Readback(e.path); }
      var sel := Select(e, flip, value, now);
      SelectedInRange(e, flip, value, now);
      if sel >= |e.values| { return None; }
      var ok := Write(e.path, e.values[sel]);
      return if ok then Some(sel) else None;
    }

    lemma {:induction false} SavedMeansRemembered(p: nat)
      requires Valid() && p < |entries|
      ensures valid[p] ==> entries[p].path in before
    {
      if valid[p] {
        FirstOnIn(entries, order[..count], entries[p].path);
        assert valid[..][p];
        assert p in order[..count];
      }
    }

    /**
     A session: any actions, then the restore. Where no action was told to leave its change behind, a path
     that was touched shows again what it showed at first, and any other path was never written.
     */
    method Session(acts: seq<Action>)
      requires Valid() && count == 0 && before == map[] && reliable
      modifies this, saved, valid, order
      ensures Valid() && count == 0
      ensures forall path {:trigger path in old(files)} :: path in old(files) && Clean(entries, acts, path) ==>
                && path in files
                && files[path] == if Touched(entries, acts, path) then Seen(old(files)[path]) else old(files)[path]
    {
      ghost var f0 := files;
      for i := 0 to |acts|
        invariant Valid() && SessionMidway(entries, acts[..i], f0, files, before)
      {
        ghost var f, b := files, before;
        var a := acts[i];
        var written := Apply(a.param, a.value, a.noRestore, a.flip);
        ghost var done := acts[..i + 1];
        forall path {:trigger Midway(entries, done, f0, files, before, path)}
          ensures Midway(entries, done, f0, files, before, path)
        {
          assert Midway(entries, acts[..i], f0, f, b, path);
          NextAction(entries, acts, i, f0, f, b, files, before, path);
        }
      }
      assert acts[..|acts|] == acts;
      ghost var f, b := files, before;
      Restore();
      forall path | path in f0 && Clean(entries, acts, path)
        ensures path in files
        ensures files[path] == if Touched(entries, acts, path) then Seen(f0[path]) else f0[path]
      {
        assert Midway(entries, acts, f0, f, b, path);
      }
    }

    /** kconfuzz_restore_config_actions: paths with a saved parameter get back what they showed first. */
    method Restore()
      requires Valid()
      modifies this, saved, valid, order
      ensures Valid() && count == 0 && before == map[] && (forall p :: 0 <= p < valid.Length ==> !valid[p])
      ensures reliable ==> forall path :: path in old(before) ==> path in files && files[path] == old(before)[path]
      ensures reliable ==> forall path :: path !in old(before) ==>
                (path in files <==> path in old(files)) && (path in files ==> files[path] == old(files)[path])
    {
      ghost var all, f0, sv := order[..count], files, saved[..];
      while count > 0
        invariant saved.Length == valid.Length == order.Length == |entries| && 0 <= count <= |entries|
        invariant Log(|entries|, order[..count], valid[..])
        invariant forall i :: 0 <= i < count ==> saved[order[i]] == sv[order[i]] && entries[order[i]].path in files
        invariant reliable ==> Undo(entries, files, order[..count], sv) == Undo(entries, f0, all, sv)
      {
        ghost var o, va := order[..count], valid[..];
        LogPop(|entries|, o, va);
        count := count - 1;
        var p := order[count];
        assert o[..count] == order[..count] && o[count] == p;
        if p >= |entries| || !valid[p] { assert false; }
        var ok := Write(entries[p].path, saved[p]);
        valid[p] := false;
        assert valid[..] == va[p := false];
        saved[p] := "";
      }
      before := map[];
      assert Undo(entries, files, [], sv) == files;
      forall path ensures reliable ==>
        match FirstOn(entries, all, path)
        case Some(p) => path in files && p < |sv| && files[path] == sv[p]
        case None => (path in files <==> path in f0) && (path in f0 ==> files[path] == f0[path])
      {
        UndoIs(entries, f0, all, sv, path);
      }
    }
  }

  // ----- whole sessions -----

  datatype Action = Action(param: nat, value: nat, noRestore: bool, flip: bool)

  predicate On(entries: seq<Entry>, a: Action, path: string) {
    a.param < |entries| && entries[a.param].path == path
  }

  /** The action is undone later, and is not refused for its value. */
  predicate Undone(entries: seq<Entry>, a: Action) {
    a.param < |entries| && !a.noRestore && (a.flip || a.value < |entries[a.param].values|)
  }

  /** No action is told to leave its change to the path behind. */
  predicate Clean(entries: seq<Entry>, acts: seq<Action>, path: string) {
    forall i :: 0 <= i < |acts| && On(entries, acts[i], path) ==> !acts[i].noRestore
  }

  predicate Touched(entries: seq<Entry>, acts: seq<Action>, path: string) {
    exists i :: 0 <= i < |acts| && On(entries, acts[i], path) && Undone(entries, acts[i])
  }

  /** Before the end: what is remembered is what was shown at first, the rest is as it was. */
  ghost predicate Midway(entries: seq<Entry>, acts: seq<Action>, f0: Files, files: Files, before: Files, path: string) {
    && (path in files <==> path in f0)
    && (Clean(entries, acts, path) && path in f0 ==>
          && (path in before <==> Touched(entries, acts, path))
          && (if path in before then before[path] == Seen(f0[path]) else files[path] == f0[path]))
  }

  ghost predicate SessionMidway(entries: seq<Entry>, acts: seq<Action>, f0: Files, files: Files, before: Files) {
    forall path {:trigger Midway(entries, acts, f0, files, before, path)} ::
      Midway(entries, acts, f0, files, before, path)
  }

  lemma {:induction false} NextAction(entries: seq<Entry>, acts: seq<Action>, i: nat, f0: Files, files: Files,
                                      before: Files, files': Files, before': Files, path: string)
    requires i < |acts| && Midway(entries, acts[..i], f0, files, before, path)
    requires path in files' <==> path in files
    requires !On(entries, acts[i], path) ==>
               (path in before' <==> path in before) && (path in before ==> before'[path] == before[path])
               && (path in files ==> files'[path] == files[path])
    requires On(entries, acts[i], path) && !acts[i].noRestore && path in files ==>
               && (path in before ==> path in before' && before'[path] == before[path])
               && (Undone(entries, acts[i]) ==> path in before')
               && (path !in before && path in before' ==> Undone(entries, acts[i]))
               && (path !in before && path in before' ==> before'[path] == Seen(files[path]))
               && (path !in before' ==> files'[path] == files[path])
    ensures Midway(entries, acts[..i + 1], f0, files', before', path)
  {
    var done, more := acts[..i], acts[..i + 1];
    assert more == done + [acts[i]];
    assert Clean(entries, more, path) <==>
      Clean(entries, done, path) && (On(entries, acts[i], path) ==> !acts[i].noRestore) by {
      if Clean(entries, more, path) {
        assert more[i] == acts[i];
        forall k | 0 <= k < |done| && On(entries, done[k], path)
            ensures !done[k].noRestore { assert more[k] == done[k]; }
      }
    }
    assert Touched(entries, more, path) <==>
      Touched(entries, done, path) || (On(entries, acts[i], path) && Undone(entries, acts[i])) by {
      if Touched(entries, done, path) {
        var k :| 0 <= k < |done| && On(entries, done[k], path) && Undone(entries, done[k]);
        assert more[k] == done[k];
      }
      if On(entries, acts[i], path) && Undone(entries, acts[i]) { assert more[i] == acts[i]; }
    }
  }

  lemma {:induction false} ReadString(out: seq<char>, content: string, n: nat)
    requires |out| == BUFFER && n == (if |content| < BUFFER then |content| else BUFFER - 1)
    requires forall i :: 0 <= i < BUFFER ==> out[i] == if i < n then content[i] else NUL
    ensures CString(out) == CString(content[..n])
  {
    var r := CString(content[..n]);
    assert out[..n] == content[..n];
    CStringIs(out, r);
  }
}
