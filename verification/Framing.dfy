/** Lists of items in a byte stream: written one after the other, read back one after the other. */
module Framing {
  import opened Basics
  import opened Bits
  import opened Varint

  type Parser<!V> = (seq<byte>, nat) -> Option<Item<V>>

  /** s stands at position i of data. */
  predicate At(data: seq<byte>, i: nat, s: seq<byte>) {
    i + |s| <= |data| && data[i..i + |s|] == s
  }

  lemma {:induction false} AtSplit(data: seq<byte>, i: nat, s: seq<byte>, t: seq<byte>)
    ensures At(data, i, s + t) <==> At(data, i, s) && At(data, i + |s|, t)
  {
    if i + |s| + |t| <= |data| {
      var d := data[i..i + |s| + |t|];
      assert data[i..i + |s|] == d[..|s|] && data[i + |s|..i + |s| + |t|] == d[|s|..];
      if At(data, i, s) && At(data, i + |s|, t) {
        assert d == d[..|s|] + d[|s|..];
      }
    }
  }

  /** A parser that only moves forward inside the data. */
  ghost predicate Forward<V>(parse: Parser<V>) {
    forall data: seq<byte>, i: nat {:trigger parse(data, i)} ::
      parse(data, i).Some? ==> i < parse(data, i).value.next <= |data|
  }

  /** parse reads back x, as v, wherever its code e stands and whatever follows. */
  ghost predicate Reads<V>(parse: Parser<V>, e: seq<byte>, v: V) {
    forall data: seq<byte>, i: nat {:trigger At(data, i, e)} ::
      At(data, i, e) ==> parse(data, i) == Some(Item(v, i + |e|))
  }

  function Many<T>(enc: T -> seq<byte>, xs: seq<T>): seq<byte> {
    if |xs| == 0 then [] else enc(xs[0]) + Many(enc, xs[1..])
  }

  function ParseMany<V>(parse: Parser<V>, data: seq<byte>, i: nat, n: nat): (r: Option<Item<seq<V>>>)
    requires Forward(parse)
    ensures r.Some? ==> |r.value.val| == n && i <= r.value.next
    ensures r.Some? && i <= |data| ==> r.value.next <= |data|
    decreases n
  {
    if n == 0 then Some(Item([], i)) else
    match parse(data, i)
    case None => None
    case Some(Item(v, j)) =>
      match ParseMany(parse, data, j, n - 1)
      case None => None
      case Some(Item(vs, k)) => Some(Item([v] + vs, k))
  }

  lemma {:induction false} ManyRoundTrip<T, V>(enc: T -> seq<byte>, parse: Parser<V>, data: seq<byte>, i: nat,
                                               xs: seq<T>, vs: seq<V>)
    requires Forward(parse) && |xs| == |vs|
    requires forall j :: 0 <= j < |xs| ==> Reads(parse, enc(xs[j]), vs[j])
    requires At(data, i, Many(enc, xs))
    ensures ParseMany(parse, data, i, |xs|) == Some(Item(vs, i + |Many(enc, xs)|))
    decreases |xs|
  {
    if |xs| > 0 {
      var e := enc(xs[0]);
      AtSplit(data, i, e, Many(enc, xs[1..]));
      assert Reads(parse, e, vs[0]);
      forall j | 0 <= j < |xs[1..]| ensures Reads(parse, enc(xs[1..][j]), vs[1..][j]) {
        assert Reads(parse, enc(xs[j + 1]), vs[j + 1]);
      }
      ManyRoundTrip(enc, parse, data, i + |e|, xs[1..], vs[1..]);
      assert vs == [vs[0]] + vs[1..];
    }
  }

  /** The same with the number of items and the end position given. */
  lemma {:induction false} ManyParses<T, V>(enc: T -> seq<byte>, parse: Parser<V>, data: seq<byte>, i: nat,
                         xs: seq<T>, vs: seq<V>, n: nat, k: nat)
    requires Forward(parse) && |xs| == |vs| == n && k == i + |Many(enc, xs)|
    requires forall j :: 0 <= j < |xs| ==> Reads(parse, enc(xs[j]), vs[j])
    requires At(data, i, Many(enc, xs))
    ensures ParseMany(parse, data, i, n) == Some(Item(vs, k))
  {
    ManyRoundTrip(enc, parse, data, i, xs, vs);
  }

  lemma {:induction false} ConcatAssoc<T>(a: seq<T>, b: seq<T>, c: seq<T>)
    ensures a + (b + c) == (a + b) + c
  {
  }

  lemma {:induction false} ManyConcat<T>(enc: T -> seq<byte>, xs: seq<T>, ys: seq<T>)
    ensures Many(enc, xs + ys) == Many(enc, xs) + Many(enc, ys)
  {
    if |xs| == 0 {
      assert xs + ys == ys;
    } else {
      assert (xs + ys)[1..] == xs[1..] + ys;
      ManyConcat(enc, xs[1..], ys);
    }
  }

  /** Reading one item and then the rest. */
  lemma {:induction false} HeadThenRest<V>(parse: Parser<V>, data: seq<byte>, i: nat, v: V, vs: seq<V>, k: nat)
    requires Forward(parse) && ParseMany(parse, data, i, 1 + |vs|) == Some(Item([v] + vs, k))
    ensures var r := parse(data, i);
            r.Some? && r.value.val == v && ParseMany(parse, data, r.value.next, |vs|) == Some(Item(vs, k))
  {
    var j := parse(data, i).value.next;
    var rest := ParseMany(parse, data, j, |vs|).value.val;
    assert [parse(data, i).value.val] + rest == [v] + vs;
    assert rest == ([v] + vs)[1..];
  }
}
