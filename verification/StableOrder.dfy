/** Stable sorting by an integer key list, as Go's sort.SliceStable is used on config actions. */
module StableOrder {

  /** Lexicographic order on keys. */
  predicate Less(a: seq<int>, b: seq<int>) {
    if |b| == 0 then false
    else if |a| == 0 then true
    else a[0] < b[0] || (a[0] == b[0] && Less(a[1..], b[1..]))
  }

  lemma {:induction false} LessTrichotomy(a: seq<int>, b: seq<int>)
    ensures a == b <==> !Less(a, b) && !Less(b, a)
    ensures !(Less(a, b) && Less(b, a))
  {
    if |a| > 0 && |b| > 0 {
      LessTrichotomy(a[1..], b[1..]);
      assert a == [a[0]] + a[1..] && b == [b[0]] + b[1..];
    }
  }

  lemma {:induction false} LessTransitive(a: seq<int>, b: seq<int>, c: seq<int>)
    requires !Less(b, a) && !Less(c, b)
    ensures !Less(c, a)
    ensures Less(a, b) ==> Less(a, c)
    ensures Less(b, c) ==> Less(a, c)
  {
    if |a| > 0 && |b| > 0 && |c| > 0 {
      if a[0] == b[0] == c[0] { LessTransitive(a[1..], b[1..], c[1..]); }
    }
  }

  ghost predicate Sorted<T(!new)>(s: seq<T>, key: T -> seq<int>) {
    forall i, j :: 0 <= i < j < |s| ==> !Less(key(s[j]), key(s[i]))
  }

  /** The elements of s with key k, in the order of s. */
  function Group<T>(s: seq<T>, key: T -> seq<int>, k: seq<int>): seq<T> {
    if |s| == 0 then []
    else Group(s[..|s| - 1], key, k) + (if key(s[|s| - 1]) == k then [s[|s| - 1]] else [])
  }

  /** r is s stably sorted: ordered by key, and elements of equal key keep their order. */
  ghost predicate StablySorted<T(!new)>(r: seq<T>, s: seq<T>, key: T -> seq<int>) {
    Sorted(r, key) && forall k :: Group(r, key, k) == Group(s, key, k)
  }

  /** A stable sort: each element goes behind those that do not exceed it. */
  function Insert<T>(s: seq<T>, x: T, key: T -> seq<int>): seq<T> {
    if |s| == 0 then [x]
    else if Less(key(x), key(s[|s| - 1])) then Insert(s[..|s| - 1], x, key) + [s[|s| - 1]]
    else s + [x]
  }

  function Sort<T>(s: seq<T>, key: T -> seq<int>): seq<T> {
    if |s| == 0 then [] else Insert(Sort(s[..|s| - 1], key), s[|s| - 1], key)
  }

  // ----- groups -----

  lemma {:induction false} GroupConcat<T>(a: seq<T>, b: seq<T>, key: T -> seq<int>, k: seq<int>)
    ensures Group(a + b, key, k) == Group(a, key, k) + Group(b, key, k)
  {
    if |b| == 0 {
      assert a + b == a;
    } else {
      GroupConcat(a, b[..|b| - 1], key, k);
      assert (a + b)[..|a + b| - 1] == a + b[..|b| - 1];
    }
  }

  lemma {:induction false} GroupMember<T>(s: seq<T>, key: T -> seq<int>, k: seq<int>, i: nat)
    requires i < |s| && key(s[i]) == k
    ensures s[i] in Group(s, key, k)
  {
    if i < |s| - 1 {
      assert s[..|s| - 1][i] == s[i];
      GroupMember(s[..|s| - 1], key, k, i);
    }
  }

  lemma {:induction false} GroupFrom<T>(s: seq<T>, key: T -> seq<int>, k: seq<int>, x: T)
    requires x in Group(s, key, k)
    ensures x in s && key(x) == k
  {
    if x in Group(s[..|s| - 1], key, k) { GroupFrom(s[..|s| - 1], key, k, x); }
  }

  /** Same groups, same elements. */
  lemma {:induction false} SameMembers<T>(r: seq<T>, s: seq<T>, key: T -> seq<int>, x: T)
    requires x in r && Group(r, key, key(x)) == Group(s, key, key(x))
    ensures x in s
  {
    var i :| 0 <= i < |r| && r[i] == x;
    GroupMember(r, key, key(x), i);
    GroupFrom(s, key, key(x), x);
  }

  /** Grouping twice is grouping by both keys. */
  lemma {:induction false} GroupNest<T(!new)>(s: seq<T>, f: T -> seq<int>, x: seq<int>, g: T -> seq<int>, y: seq<int>,
                                              h: T -> seq<int>, z: seq<int>)
    requires forall a :: a in s ==> (h(a) == z <==> f(a) == x && g(a) == y)
    ensures Group(Group(s, f, x), g, y) == Group(s, h, z)
  {
    if |s| > 0 {
      var t, a := s[..|s| - 1], s[|s| - 1];
      assert a in s;
      GroupNest(t, f, x, g, y, h, z);
      GroupConcat(Group(t, f, x), [a], g, y);
      assert Group([a], g, y) == if g(a) == y then [a] else [];
      assert Group(s, f, x) == if f(a) == x then Group(t, f, x) + [a] else Group(t, f, x);
    }
  }

  lemma {:induction false} GroupSame<T(!new)>(s: seq<T>, g: T -> seq<int>, y: seq<int>, h: T -> seq<int>, z: seq<int>)
    requires forall a :: a in s ==> (h(a) == z <==> g(a) == y)
    ensures Group(s, g, y) == Group(s, h, z)
  {
    if |s| > 0 {
      assert s[|s| - 1] in s;
      GroupSame(s[..|s| - 1], g, y, h, z);
    }
  }

  lemma {:induction false} GroupNone<T(!new)>(s: seq<T>, g: T -> seq<int>, y: seq<int>)
    requires forall a :: a in s ==> g(a) != y
    ensures Group(s, g, y) == []
  {
    if |s| > 0 {
      assert s[|s| - 1] in s;
      GroupNone(s[..|s| - 1], g, y);
    }
  }

  // ----- Sort is a stable sort -----

  lemma {:induction false} InsertGroups<T>(s: seq<T>, x: T, key: T -> seq<int>, k: seq<int>)
    ensures Group(Insert(s, x, key), key, k) == Group(s + [x], key, k)
  {
    if |s| > 0 && Less(key(x), key(s[|s| - 1])) {
      var t, y := s[..|s| - 1], s[|s| - 1];
      InsertGroups(t, x, key, k);
      GroupConcat(Insert(t, x, key), [y], key, k);
      GroupConcat(t, [x], key, k);
      GroupConcat(s, [x], key, k);
      LessTrichotomy(key(x), key(y));
    }
  }

  lemma {:induction false} InsertMembers<T>(s: seq<T>, x: T, key: T -> seq<int>)
    ensures |Insert(s, x, key)| == |s| + 1
    ensures forall y :: y in Insert(s, x, key) ==> y in s || y == x
  {
    if |s| > 0 && Less(key(x), key(s[|s| - 1])) { InsertMembers(s[..|s| - 1], x, key); }
  }

  lemma {:induction false} InsertSorted<T(!new)>(s: seq<T>, x: T, key: T -> seq<int>)
    requires Sorted(s, key)
    ensures Sorted(Insert(s, x, key), key)
  {
    if |s| > 0 {
      var t, y := s[..|s| - 1], s[|s| - 1];
      if Less(key(x), key(y)) {
        InsertSorted(t, x, key);
        InsertMembers(t, x, key);
        LessTrichotomy(key(x), key(y));
        AppendSorted(Insert(t, x, key), y, key);
      } else {
        forall z | z in s ensures !Less(key(x), key(z)) {
          var i :| 0 <= i < |s| && s[i] == z;
          LessTrichotomy(key(y), key(y));
          LessTransitive(key(z), key(y), key(x));
        }
        AppendSorted(s, x, key);
      }
    }
  }

  lemma {:induction false} AppendSorted<T(!new)>(s: seq<T>, x: T, key: T -> seq<int>)
    requires Sorted(s, key) && forall z :: z in s ==> !Less(key(x), key(z))
    ensures Sorted(s + [x], key)
  {
  }

  lemma {:induction false} SortIsStable<T(!new)>(s: seq<T>, key: T -> seq<int>)
    ensures StablySorted(Sort(s, key), s, key)
  {
    if |s| > 0 {
      var t, x := s[..|s| - 1], s[|s| - 1];
      SortIsStable(t, key);
      InsertSorted(Sort(t, key), x, key);
      forall k ensures Group(Sort(s, key), key, k) == Group(s, key, k) {
        InsertGroups(Sort(t, key), x, key, k);
        GroupConcat(Sort(t, key), [x], key, k);
        GroupConcat(t, [x], key, k);
        assert t + [x] == s;
      }
    }
  }

  // ----- and the only one -----

  /** The last element of a sorted list has the largest key and ends the group of that key. */
  lemma {:induction false} StableSortUnique<T(!new)>(a: seq<T>, b: seq<T>, s: seq<T>, key: T -> seq<int>)
    requires StablySorted(a, s, key) && StablySorted(b, s, key)
    ensures a == b
    decreases |a| + |b|
  {
    if |a| == 0 || |b| == 0 {
      if |a| > 0 { SameAsMember(a, b, s, key); }
      if |b| > 0 { SameAsMember(b, a, s, key); }
    } else {
      var x, y := a[|a| - 1], b[|b| - 1];
      LastIsLargest(a, b, s, key);
      LastIsLargest(b, a, s, key);
      LessTrichotomy(key(x), key(y));
      var k := key(x);
      assert Group(a, key, k) == Group(a[..|a| - 1], key, k) + [x];
      assert Group(b, key, k) == Group(b[..|b| - 1], key, k) + [y];
      assert x == Group(a, key, k)[|Group(a, key, k)| - 1] == y;
      DropLast(a, b, s, key, x);
    }
  }

  lemma {:induction false} SameAsMember<T(!new)>(a: seq<T>, b: seq<T>, s: seq<T>, key: T -> seq<int>)
    requires |a| > 0 && StablySorted(a, s, key) && StablySorted(b, s, key)
    ensures |b| > 0
  {
    var x := a[0];
    assert Group(a, key, key(x)) == Group(b, key, key(x));
    SameMembers(a, b, key, x);
  }

  lemma {:induction false} LastIsLargest<T(!new)>(a: seq<T>, b: seq<T>, s: seq<T>, key: T -> seq<int>)
    requires |a| > 0 && |b| > 0 && StablySorted(a, s, key) && StablySorted(b, s, key)
    ensures !Less(key(b[|b| - 1]), key(a[|a| - 1]))
  {
    var x, y := a[|a| - 1], b[|b| - 1];
    assert Group(a, key, key(x)) == Group(b, key, key(x));
    SameMembers(a, b, key, x);
    var i :| 0 <= i < |b| && b[i] == x;
    LessTrichotomy(key(y), key(y));
  }

  lemma {:induction false} DropLast<T(!new)>(a: seq<T>, b: seq<T>, s: seq<T>, key: T -> seq<int>, x: T)
    requires StablySorted(a, s, key) && StablySorted(b, s, key)
    requires |a| > 0 && |b| > 0 && a[|a| - 1] == b[|b| - 1] == x
    ensures a == b
    decreases |a| + |b|, 0
  {
    var a', b' := a[..|a| - 1], b[..|b| - 1];
    forall k ensures Group(a', key, k) == Group(b', key, k) {
      assert Group(a, key, k) == Group(b, key, k);
      var tail := if key(x) == k then [x] else [];
      assert Group(a, key, k) == Group(a', key, k) + tail;
      assert Group(b, key, k) == Group(b', key, k) + tail;
      CancelTail(Group(a', key, k), Group(b', key, k), tail);
    }
    StableSortUnique(a', b', a', key);
    assert a == a' + [x] && b == b' + [x];
  }

  lemma {:induction false} CancelTail<T>(a: seq<T>, b: seq<T>, t: seq<T>)
    requires a + t == b + t
    ensures a == b
  {
    assert a == (a + t)[..|a + t| - |t|];
    assert b == (b + t)[..|b + t| - |t|];
  }

  /** Only the keys of the elements matter. */
  lemma {:induction false} SortAgrees<T>(s: seq<T>, f: T -> seq<int>, g: T -> seq<int>)
    requires forall i :: 0 <= i < |s| ==> f(s[i]) == g(s[i])
    ensures Sort(s, f) == Sort(s, g)
  {
    if |s| > 0 {
      var n := |s| - 1;
      SortAgrees(s[..n], f, g);
      var t := Sort(s[..n], f);
      SortBag(s[..n], f);
      forall i | 0 <= i < |t| ensures f(t[i]) == g(t[i]) {
        assert t[i] in multiset(t);
        assert t[i] in s[..n];
      }
      InsertAgrees(t, s[n], f, g);
    }
  }

  lemma {:induction false} InsertAgrees<T>(s: seq<T>, x: T, f: T -> seq<int>, g: T -> seq<int>)
    requires f(x) == g(x) && forall i :: 0 <= i < |s| ==> f(s[i]) == g(s[i])
    ensures Insert(s, x, f) == Insert(s, x, g)
  {
    if |s| > 0 && Less(f(x), f(s[|s| - 1])) { InsertAgrees(s[..|s| - 1], x, f, g); }
  }

  lemma {:induction false} InsertBag<T>(s: seq<T>, x: T, key: T -> seq<int>)
    ensures multiset(Insert(s, x, key)) == multiset(s) + multiset{x}
  {
    if |s| > 0 {
      assert s == s[..|s| - 1] + [s[|s| - 1]];
      if Less(key(x), key(s[|s| - 1])) { InsertBag(s[..|s| - 1], x, key); }
    }
  }

  lemma {:induction false} SortBag<T>(s: seq<T>, key: T -> seq<int>)
    ensures multiset(Sort(s, key)) == multiset(s)
  {
    if |s| > 0 {
      SortBag(s[..|s| - 1], key);
      InsertBag(Sort(s[..|s| - 1], key), s[|s| - 1], key);
      assert s == s[..|s| - 1] + [s[|s| - 1]];
    }
  }
}
