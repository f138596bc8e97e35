/** The canonical form of configuration actions and contexts (prog/kconfuzz.go). */
module Normalize {
  import opened Basics
  import opened StableOrder
  import opened ExecStream

  function NormKey(): Action -> seq<int> {
    (a: Action) => [a.before, a.param as int, a.value as int, a.flags as int]
  }

  lemma {:induction false} KeyDecides(a: Action, b: Action)
    ensures NormKey()(a) == NormKey()(b) <==> a == b
  {
    var k, l := NormKey()(a), NormKey()(b);
    if k == l { assert k[0] == l[0] && k[1] == l[1] && k[2] == l[2] && k[3] == l[3]; }
  }

  /** BeforeCall is not negative and, if the program is known, not behind its end. */
  predicate Keep(a: Action, calls: Option<nat>) {
    a.before >= 0 && (calls.Some? ==> a.before <= calls.value)
  }

  function Kept(acts: seq<Action>, calls: Option<nat>): seq<Action> {
    if |acts| == 0 then []
    else Kept(acts[..|acts| - 1], calls) + if Keep(acts[|acts| - 1], calls) then [acts[|acts| - 1]] else []
  }

  /** NormalizeKConfuzzConfigActions; None is the nil slice. */
  method Normalize(acts: seq<Action>, calls: Option<nat>) returns (r: Option<seq<Action>>)
    ensures r == Normal(acts, calls)
  {
    if |acts| == 0 { return None; }
    var ret := [];
    var i := 0;
    while i < |acts|
      invariant 0 <= i <= |acts| && ret == Kept(acts[..i], calls)
    {
      assert acts[..i + 1][..i] == acts[..i];
      if Keep(acts[i], calls) { ret := ret + [acts[i]]; }
      i := i + 1;
    }
    assert acts[..i] == acts;
    return Some(Sort(ret, NormKey()));
  }

  function Normal(acts: seq<Action>, calls: Option<nat>): Option<seq<Action>> {
    if |acts| == 0 then None else Some(Sort(Kept(acts, calls), NormKey()))
  }

  function Items(s: Option<seq<Action>>): seq<Action> { if s.None? then [] else s.value }

  // ----- sorting by the whole action -----

  function Copies(a: Action, n: nat): seq<Action> { seq(n, _ => a) }

  /** The group of an action's key is that action, as often as it occurs. */
  lemma {:induction false} GroupOfAction(s: seq<Action>, a: Action)
    ensures Group(s, NormKey(), NormKey()(a)) == Copies(a, multiset(s)[a])
  {
    if |s| > 0 {
      var t, x := s[..|s| - 1], s[|s| - 1];
      assert s == t + [x];
      GroupOfAction(t, a);
      KeyDecides(x, a);
    }
  }

  lemma {:induction false} SameBagSameGroups(s: seq<Action>, t: seq<Action>, k: seq<int>)
    requires multiset(s) == multiset(t)
    ensures Group(s, NormKey(), k) == Group(t, NormKey(), k)
  {
    if a: Action :| NormKey()(a) == k {
      GroupOfAction(s, a);
      GroupOfAction(t, a);
    } else {
      GroupNone(s, NormKey(), k);
      GroupNone(t, NormKey(), k);
    }
  }

  lemma {:induction false} SameGroupsSameBag(s: seq<Action>, t: seq<Action>)
    requires forall k :: Group(s, NormKey(), k) == Group(t, NormKey(), k)
    ensures multiset(s) == multiset(t)
  {
    forall a: Action ensures multiset(s)[a] == multiset(t)[a] {
      GroupOfAction(s, a);
      GroupOfAction(t, a);
      assert |Copies(a, multiset(s)[a])| == |Copies(a, multiset(t)[a])|;
    }
  }

  /** Sorting by the whole action forgets the order and nothing else. */
  lemma {:induction false} SortDecides(s: seq<Action>, t: seq<Action>)
    ensures Sort(s, NormKey()) == Sort(t, NormKey()) <==> multiset(s) == multiset(t)
    ensures multiset(Sort(s, NormKey())) == multiset(s)
  {
    SortIsStable(s, NormKey());
    SortIsStable(t, NormKey());
    SameGroupsSameBag(Sort(s, NormKey()), s);
    SameGroupsSameBag(Sort(t, NormKey()), t);
    if multiset(s) == multiset(t) {
      forall k ensures Group(Sort(t, NormKey()), NormKey(), k) == Group(s, NormKey(), k) {
        SameBagSameGroups(s, t, k);
      }
      StableSortUnique(Sort(s, NormKey()), Sort(t, NormKey()), s, NormKey());
    }
  }

  lemma {:induction false} KeptOfKept(acts: seq<Action>, calls: Option<nat>)
    requires forall a :: a in acts ==> Keep(a, calls)
    ensures Kept(acts, calls) == acts
  {
    if |acts| > 0 {
      assert acts[|acts| - 1] in acts;
      KeptOfKept(acts[..|acts| - 1], calls);
    }
  }

  /** Exactly the actions in range are kept, as often as they occur. */
  lemma {:induction false} KeptCounts(acts: seq<Action>, calls: Option<nat>, a: Action)
    ensures multiset(Kept(acts, calls))[a] == if Keep(a, calls) then multiset(acts)[a] else 0
  {
    if |acts| > 0 {
      var t, x := acts[..|acts| - 1], acts[|acts| - 1];
      assert acts == t + [x];
      KeptCounts(t, calls, a);
    }
  }

  /** Normalizing keeps exactly the actions in range, as a multiset. */
  lemma {:induction false} NormalKeeps(acts: seq<Action>, calls: Option<nat>, a: Action)
    ensures multiset(Items(Normal(acts, calls)))[a] == if Keep(a, calls) then multiset(acts)[a] else 0
  {
    if |acts| > 0 {
      SortDecides(Kept(acts, calls), []);
      KeptCounts(acts, calls, a);
    }
  }

  /** Normalizing twice changes no action. */
  lemma {:induction false} NormalTwice(acts: seq<Action>, calls: Option<nat>)
    ensures var once := Items(Normal(acts, calls)); Items(Normal(once, calls)) == once
  {
    var once := Items(Normal(acts, calls));
    forall a | a in once ensures Keep(a, calls) {
      NormalKeeps(acts, calls, a);
      assert multiset(once)[a] > 0;
    }
    KeptOfKept(once, calls);
    if |acts| > 0 {
      SortDecides(Kept(acts, calls), []);
      SortDecides(once, Kept(acts, calls));
      if |once| == 0 { assert once == []; }
    }
  }

  // ----- contexts -----

  datatype Context = Context(strategy: string, source: string, dependent: bool, actions: seq<Action>)

  /** What is marshalled; the encoding is taken as injective. */
  datatype Json = Json(strategy: string, source: string, dependent: bool, actions: Option<seq<Action>>)

  predicate Empty(c: Option<Context>) {
    c.None? || (|c.value.actions| == 0 && !c.value.dependent)
  }

  /** SignatureData */
  method SignatureData(c: Option<Context>) returns (s: Option<Json>)
    ensures s == Signature(c)
  {
    if Empty(c) { return None; }
    var acts := Normalize(c.value.actions, None);
    return Some(Json(c.value.strategy, c.value.source, c.value.dependent, acts));
  }

  function Signature(c: Option<Context>): Option<Json> {
    if Empty(c) then None
    else Some(Json(c.value.strategy, c.value.source, c.value.dependent, Normal(c.value.actions, None)))
  }

  /** When two signatures agree, for all contexts. */
  lemma {:induction false} SignaturesAgree(a: Option<Context>, b: Option<Context>)
    ensures Signature(a) == Signature(b) <==>
            if Empty(a) || Empty(b) then Empty(a) && Empty(b)
            else
              && a.value.strategy == b.value.strategy && a.value.source == b.value.source
              && a.value.dependent == b.value.dependent
              && (|a.value.actions| == 0 <==> |b.value.actions| == 0)
              && multiset(Kept(a.value.actions, None)) == multiset(Kept(b.value.actions, None))
  {
    if !Empty(a) && !Empty(b) {
      SortDecides(Kept(a.value.actions, None), Kept(b.value.actions, None));
    }
  }

  ghost predicate NoNegative(c: Option<Context>) {
    c.Some? ==> forall x :: x in c.value.actions ==> x.before >= 0
  }

  /** Without negative positions: both empty, or the same fields and the same multiset of actions. */
  lemma {:induction false} SignatureMeaning(a: Option<Context>, b: Option<Context>)
    requires NoNegative(a) && NoNegative(b)
    ensures Signature(a) == Signature(b) <==>
            || (Empty(a) && Empty(b))
            || (&& a.Some? && b.Some? && a.value.strategy == b.value.strategy && a.value.source == b.value.source
                && a.value.dependent == b.value.dependent && multiset(a.value.actions) == multiset(b.value.actions))
  {
    SignaturesAgree(a, b);
    if a.Some? { KeptOfKept(a.value.actions, None); }
    if b.Some? { KeptOfKept(b.value.actions, None); }
    if a.Some? && b.Some? && multiset(a.value.actions) == multiset(b.value.actions) {
      assert |multiset(a.value.actions)| == |multiset(b.value.actions)|;
    }
  }

  /** With a negative position, contexts that keep the same actions can still differ: nil is not an empty list. */
  lemma {:induction false} NegativeMatters()
    ensures var a, b := Context("", "", true, []), Context("", "", true, [Action(-1, 0, 0, 0)]);
            Kept(a.actions, None) == Kept(b.actions, None) && Signature(Some(a)) != Signature(Some(b))
  {
    var x := Action(-1, 0, 0, 0);
    assert [x][..0] == [] && Kept([], None) == [];
    assert Kept([x], None) == [] + [];
  }
}
