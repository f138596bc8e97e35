/**
 Blocks: the codes that stand in the format, the codes that a block sends along, and whole streams of
 blocks, each read back as what was written.
 */
module DeflateBlocks {
  import opened Basics
  import opened Bits
  import opened Canonical
  import opened Rfc1951
  import opened DeflateRoundTrip
  import D = Deflate

  // ----- the fixed codes (section 3.2.6) -----

  /** How many of the first k symbols have a fixed code of l bits. */
  function FixedCount(k: nat, l: nat): nat {
    if l == 7 then if k <= 256 then 0 else if k <= 280 then k - 256 else 24
    else if l == 8 then (if k <= 144 then k else 144) + if k <= 280 then 0 else k - 280
    else if l == 9 then if k <= 144 then 0 else if k <= 256 then k - 144 else 112
    else 0
  }

  lemma {:induction false} CountFixed(k: nat, l: nat)
    requires k <= 288
    ensures Count(FixedLit()[..k], l) == FixedCount(k, l)
  {
    if k > 0 {
      CountFixed(k - 1, l);
      CountNext(FixedLit(), k - 1, l);
      assert FixedLit()[k - 1] == FixedLength(k - 1);
    }
  }

  lemma {:induction false} FirstFixed(l: nat)
    requires 1 <= l <= 9
    ensures FirstCode(FixedLit(), l) == if l <= 7 then 0 else if l == 8 then 0x30 else 0x190
  {
    if l > 1 {
      FirstFixed(l - 1);
      CountFixed(288, l - 1);
      assert FixedLit()[..288] == FixedLit();
    }
  }

  /** The bit strings of the format are the canonical codes of its lengths. */
  lemma {:induction false} FixedCode(s: nat)
    requires s < 288
    ensures D.FixedCodes()(s) == D.BookOf(FixedLit())(s)
  {
    var l := FixedLength(s);
    assert FixedLit()[s] == l;
    FirstFixed(l);
    CountFixed(s, l);
  }

  lemma {:induction false} CountFives(k: nat, l: nat)
    requires k <= 30
    ensures Count(FixedDist()[..k], l) == if l == 5 then k else 0
  {
    if k > 0 {
      CountFives(k - 1, l);
      CountNext(FixedDist(), k - 1, l);
    }
  }

  lemma {:induction false} FirstFive(l: nat)
    requires 1 <= l <= 5
    ensures FirstCode(FixedDist(), l) == 0
  {
    if l > 1 {
      FirstFive(l - 1);
      CountFives(30, l - 1);
      assert FixedDist()[..30] == FixedDist();
    }
  }

  lemma {:induction false} FixedDistance(s: nat)
    requires s < 30
    ensures D.FixedDistances()(s) == D.BookOf(FixedDist())(s)
  {
    FirstFive(5);
    CountFives(s, 5);
  }

  lemma {:induction false} FixedToken(t: D.Token)
    requires D.IsToken(t)
    ensures D.TokenBits(D.FixedCodes(), D.FixedDistances(), t) ==
            D.TokenBits(D.BookOf(FixedLit()), D.BookOf(FixedDist()), t)
    ensures D.CodedToken(FixedLit(), FixedDist(), t)
  {
    match t {
      case Literal(b) => FixedCode(b as int);
      case Match(len, d) =>
        LengthFacts(len);
        DistFacts(d);
        FixedCode(D.LengthPieces(len).sym);
        FixedDistance(D.DistPieces(d).sym);
    }
  }

  lemma {:induction false} FixedTokens(ts: seq<D.Token>)
    requires D.AreTokens(ts)
    ensures D.TokensBits(D.FixedCodes(), D.FixedDistances(), ts) ==
            D.TokensBits(D.BookOf(FixedLit()), D.BookOf(FixedDist()), ts)
    ensures D.Coded(FixedLit(), FixedDist(), ts)
  {
    if |ts| == 0 {
      FixedCode(256);
    } else {
      FixedToken(ts[0]);
      FixedTokens(ts[1..]);
      assert forall i :: 1 <= i < |ts| ==> ts[i] == ts[1..][i - 1];
    }
  }

  const EXAMPLE: seq<nat> := [3, 3, 3, 3, 3, 2, 4, 4]

  lemma {:induction false} CountExample(k: nat, l: nat)
    requires k <= 8
    ensures Count(EXAMPLE[..k], l) ==
            if l == 3 then if k <= 5 then k else 5
            else if l == 2 then if k <= 5 then 0 else 1
            else if l == 4 then if k <= 6 then 0 else k - 6
            else 0
  {
    if k > 0 {
      CountExample(k - 1, l);
      CountNext(EXAMPLE, k - 1, l);
    }
  }

  lemma {:induction false} FirstExample(l: nat)
    requires 1 <= l <= 4
    ensures FirstCode(EXAMPLE, l) == if l <= 2 then 0 else if l == 3 then 2 else 14
  {
    if l > 1 {
      FirstExample(l - 1);
      CountExample(8, l - 1);
      assert EXAMPLE[..8] == EXAMPLE;
    }
  }

  /** The lengths of the example in section 3.2.2 get the codes that stand there. */
  lemma {:induction false} FormatExample(s: nat)
    requires s < 8
    ensures Code(EXAMPLE, s) == [2, 3, 4, 5, 6, 0, 14, 15][s]
  {
    FirstExample(EXAMPLE[s]);
    CountExample(s, EXAMPLE[s]);
  }

  /** A fixed block. */
  lemma {:induction false} FixedReads(bits: seq<bit>, p: nat, ts: seq<D.Token>, out: seq<byte>, room: nat, e: nat)
    requires |out| <= room && D.AreTokens(ts)
    requires Holds(bits, p, D.TokensBits(D.FixedCodes(), D.FixedDistances(), ts))
    requires e == p + |D.TokensBits(D.FixedCodes(), D.FixedDistances(), ts)|
    ensures Codes(FixedLit(), FixedDist(), bits, p, out, room) == Result(D.Expand(ts, out, room), e)
  {
    FixedTokens(ts);
    FixedLitKraft();
    FixedDistKraft();
    TokensRead(FixedLit(), FixedDist(), bits, p, ts, out, room, e);
    assert Open(true);
  }

  // ----- the codes that a block sends (section 3.2.7) -----

  lemma {:induction false} SentOrder(i: nat)
    requires i < 19
    ensures D.SendOrder(i) == Order(i)
  {
  }

  /** The i-th length that is sent stands 3 * i bits behind the first. */
  lemma {:induction false} SentReads(bits: seq<bit>, p: nat, cl: seq<nat>, i: nat, n: nat, k: nat)
    requires |cl| == 19 && i <= k < n <= 19 && (forall s :: 0 <= s < 19 ==> cl[s] <= 7)
    requires Holds(bits, p + 3 * i, D.SentBits(cl, i, n))
    ensures p + 3 * k + 3 <= |bits| && BitsAt(bits, p + 3 * k, 3) == cl[D.SendOrder(k)]
    decreases n - i
  {
    HoldsSplit(bits, p + 3 * i, D.Number(cl[D.SendOrder(i)], 3), D.SentBits(cl, i + 1, n));
    if k == i {
      assert Pow2(3) == 8;
      NumberReads(bits, p + 3 * i, cl[D.SendOrder(i)], 3);
    } else {
      SentReads(bits, p, cl, i + 1, n, k);
    }
  }

  lemma {:induction false} SentLengths(cl: seq<nat>, i: nat, n: nat)
    requires |cl| == 19 && i <= n <= 19
    ensures |D.SentBits(cl, i, n)| == 3 * (n - i)
    decreases n - i
  {
    if i < n { SentLengths(cl, i + 1, n); }
  }

  lemma {:induction false} NotSentAt(cl: seq<nat>, i: nat, k: nat)
    requires |cl| == 19 && i <= k < 19 && D.NotSent(cl, i)
    ensures cl[D.SendOrder(k)] == 0
    decreases k - i
  {
    if i < k { NotSentAt(cl, i + 1, k); }
  }

  /** The length that is sent k-th, or zero. */
  lemma {:induction false} SentAtReads(bits: seq<bit>, p: nat, cl: seq<nat>, n: nat, k: nat)
    requires |cl| == 19 && n <= 19 && k < 19 && (forall s :: 0 <= s < 19 ==> cl[s] <= 7) && D.NotSent(cl, n)
    requires Holds(bits, p, D.SentBits(cl, 0, n)) && p + 3 * n <= |bits|
    ensures SentLength(bits, p, n, k) == cl[D.SendOrder(k)]
  {
    if k < n {
      SentReads(bits, p, cl, 0, n, k);
    } else {
      NotSentAt(cl, n, k);
    }
  }

  lemma {:induction false} SentBound(bits: seq<bit>, p: nat, cl: seq<nat>, n: nat)
    requires |cl| == 19 && n <= 19 && Holds(bits, p, D.SentBits(cl, 0, n))
    ensures p + 3 * n <= |bits|
  {
    SentLengths(cl, 0, n);
    HoldsIs(bits, p, D.SentBits(cl, 0, n));
  }

  /** The lengths of the code length code come back. */
  lemma {:induction false} CodeLengthsRead(bits: seq<bit>, p: nat, cl: seq<nat>, n: nat)
    requires |cl| == 19 && n <= 19 && (forall s :: 0 <= s < 19 ==> cl[s] <= 7) && D.NotSent(cl, n)
    requires Holds(bits, p, D.SentBits(cl, 0, n))
    ensures p + 3 * n <= |bits| && CodeLengthLengths(bits, p, n) == cl
  {
    SentBound(bits, p, cl, n);
    forall s | 0 <= s < 19 ensures CodeLengthLengths(bits, p, n)[s] == cl[s] {
      SentInverse(s);
      SentOrder(SentAt(s));
      SentAtReads(bits, p, cl, n, SentAt(s));
    }
  }

  lemma {:induction false} TimesRepeats(x: nat, n: nat)
    ensures D.Times(x, n) == Repeat(x, n)
  {
    if n > 0 {
      TimesRepeats(x, n - 1);
      assert Repeat(x, n) == [x] + Repeat(x, n - 1);
    }
  }

  /** What one run does to the lengths so far. */
  function RunStep(r: D.Run, acc: seq<nat>, total: nat, e: nat): LengthStep
    requires D.IsRun(r) && D.AreLengths(acc)
  {
    match r
    case One(l) => LengthsMore(e, acc + [l])
    case Again(n) =>
      if |acc| == 0 then LengthsBad(-5)
      else if |acc| + n > total then LengthsBad(-6)
      else
        assert D.Times(acc[|acc| - 1], n) == Repeat(acc[|acc| - 1], n) by { TimesRepeats(acc[|acc| - 1], n); }
        LengthsMore(e, acc + D.Times(acc[|acc| - 1], n))
    case Zeros(n) =>
      if |acc| + n > total then LengthsBad(-6)
      else
        assert D.Times(0, n) == Repeat(0, n) by { TimesRepeats(0, n); }
        LengthsMore(e, acc + D.Times(0, n))
  }

  /** A symbol with a number of extra bits behind it. */
  lemma {:induction false} RunParts(cl: Lengths, bits: seq<bit>, p: nat, q: nat, r: D.Run)
    requires KraftSum(cl) <= 0x8000 && |cl| == 19 && D.IsRun(r) && cl[D.RunSymbol(r)] >= 1
             && q == p + cl[D.RunSymbol(r)]
    requires Holds(bits, p, D.BookOf(cl)(D.RunSymbol(r)) + D.RunExtra(r))
    ensures NextSymbol(cl, bits, p) == Symbol(D.RunSymbol(r)) && Holds(bits, q, D.RunExtra(r))
    ensures p + |D.BookOf(cl)(D.RunSymbol(r)) + D.RunExtra(r)| == q + |D.RunExtra(r)|
  {
    HoldsSplit(bits, p, D.BookOf(cl)(D.RunSymbol(r)), D.RunExtra(r));
    SymbolReads(cl, bits, p, D.RunSymbol(r));
  }

  lemma {:induction false} ExtraReads(bits: seq<bit>, q: nat, r: D.Run)
    requires D.IsRun(r) && !r.One? && Holds(bits, q, D.RunExtra(r))
    ensures var sym := D.RunSymbol(r);
            var extra := if sym == 16 then 2 else if sym == 17 then 3 else 7;
            && |D.RunExtra(r)| == extra && q + extra <= |bits|
            && (if sym == 18 then 11 else 3) + BitsAt(bits, q, extra) == r.n
  {
    match r {
      case Again(n) => FieldReads(bits, q, n - 3, 2, 4);
      case Zeros(n) => if n <= 10 { FieldReads(bits, q, n - 3, 3, 8); } else { FieldReads(bits, q, n - 11, 7, 128); }
    }
  }

  lemma {:induction false} FieldReads(bits: seq<bit>, q: nat, v: nat, n: nat, limit: nat)
    requires n <= 7 && limit == (if n == 2 then 4 else if n == 3 then 8 else 128) && (n == 2 || n == 3 || n == 7)
    requires v < limit && Holds(bits, q, D.Number(v, n))
    ensures q + n <= |bits| && BitsAt(bits, q, n) == v
  {
    SmallPowers();
    NumberReads(bits, q, v, n);
  }

  lemma {:induction false} RunReads(cl: Lengths, bits: seq<bit>, p: nat, q: nat, r: D.Run, acc: Lengths, total: nat,
                                    e: nat)
    requires |cl| == 19 && |acc| < total && D.IsRun(r) && NextSymbol(cl, bits, p) == Symbol(D.RunSymbol(r))
    requires q == p + cl[D.RunSymbol(r)] && Holds(bits, q, D.RunExtra(r)) && e == q + |D.RunExtra(r)|
    ensures ReadLengthsStep(cl, bits, p, acc, total) == RunStep(r, acc, total, e)
  {
    match r {
      case One(l) =>
      case Again(n) =>
        ExtraReads(bits, q, r);
        if |acc| > 0 { TimesRepeats(acc[|acc| - 1], n); }
      case Zeros(n) =>
        ExtraReads(bits, q, r);
        TimesRepeats(0, n);
    }
  }

  function LengthsOf(u: D.Unrolled, e: nat): LengthsResult
    requires u.Whole? ==> D.AreLengths(u.ls)
  {
    match u
    case Whole(ls) => Read(e, ls)
    case NoFirst => Bad(-5)
    case TooMany => Bad(-6)
    case Uneven => Bad(0)
  }

  lemma {:induction false} UnrollLengths(rs: seq<D.Run>, acc: seq<nat>, total: nat)
    requires D.AreRuns(rs) && D.AreLengths(acc)
    ensures var u := D.Unroll(rs, acc, total); u.Whole? ==> D.AreLengths(u.ls) && |u.ls| == total
    decreases |rs|
  {
    if |rs| > 0 && |acc| < total {
      match rs[0] {
        case One(l) => UnrollLengths(rs[1..], acc + [l], total);
        case Again(n) =>
          if |acc| > 0 {
            TimesRepeats(acc[|acc| - 1], n);
            UnrollLengths(rs[1..], acc + D.Times(acc[|acc| - 1], n), total);
          }
        case Zeros(n) =>
          TimesRepeats(0, n);
          UnrollLengths(rs[1..], acc + D.Times(0, n), total);
      }
    }
  }

  /** Reading lengths from p gives what the runs stand for, and ends at e. */
  ghost predicate Unrolls(cl: Lengths, bits: seq<bit>, p: nat, rs: seq<D.Run>, acc: Lengths, total: nat, e: nat) {
    forall u: bool {:trigger Open(u)} :: Open(u) ==>
      && |cl| == 19 && |acc| <= total && (D.Unroll(rs, acc, total).Whole? ==> D.AreLengths(D.Unroll(rs, acc, total).ls))
      && ReadLengths(cl, bits, p, acc, total) == LengthsOf(D.Unroll(rs, acc, total), e)
  }

  lemma {:induction false} UnrollsEnd(cl: Lengths, bits: seq<bit>, p: nat, acc: Lengths, total: nat)
    requires |cl| == 19 && |acc| == total
    ensures Unrolls(cl, bits, p, [], acc, total, p)
  {
  }

  lemma {:induction false} UnrollsStop(cl: Lengths, bits: seq<bit>, p: nat, rs: seq<D.Run>, acc: Lengths, total: nat,
                                       e: nat, q: nat)
    requires |cl| == 19 && |acc| < total && |rs| > 0 && D.AreRuns(rs)
    requires ReadLengthsStep(cl, bits, p, acc, total) == RunStep(rs[0], acc, total, q)
    requires RunStep(rs[0], acc, total, q).LengthsBad?
    ensures Unrolls(cl, bits, p, rs, acc, total, e)
  {
  }

  lemma {:induction false} UnrollsNext(cl: Lengths, bits: seq<bit>, p: nat, rs: seq<D.Run>, acc: Lengths, total: nat,
                                       e: nat, q: nat, acc': Lengths)
    requires |cl| == 19 && |acc| < total && |acc'| <= total && |rs| > 0 && D.AreRuns(rs)
    requires ReadLengthsStep(cl, bits, p, acc, total) == RunStep(rs[0], acc, total, q) == LengthsMore(q, acc')
    requires Unrolls(cl, bits, q, rs[1..], acc', total, e)
    ensures Unrolls(cl, bits, p, rs, acc, total, e)
  {
    assert Open(true);
    UnrollNext(rs, acc, total, q, acc');
  }

  lemma {:induction false} UnrollNext(rs: seq<D.Run>, acc: seq<nat>, total: nat, q: nat, acc': Lengths)
    requires |acc| < total && |rs| > 0 && D.AreRuns(rs) && D.AreLengths(acc)
    requires RunStep(rs[0], acc, total, q) == LengthsMore(q, acc')
    ensures D.Unroll(rs, acc, total) == D.Unroll(rs[1..], acc', total)
  {
  }

  lemma {:induction false} FirstRun(bits: seq<bit>, p: nat, book: D.Book, rs: seq<D.Run>, e: nat, q: nat)
    requires |rs| > 0 && D.AreRuns(rs) && Holds(bits, p, D.RunsBits(book, rs)) && e == p + |D.RunsBits(book, rs)|
    requires q == p + |book(D.RunSymbol(rs[0])) + D.RunExtra(rs[0])|
    ensures Holds(bits, p, book(D.RunSymbol(rs[0])) + D.RunExtra(rs[0])) && Holds(bits, q, D.RunsBits(book, rs[1..]))
    ensures e == q + |D.RunsBits(book, rs[1..])|
  {
    HoldsSplit(bits, p, book(D.RunSymbol(rs[0])) + D.RunExtra(rs[0]), D.RunsBits(book, rs[1..]));
  }

  /** Runs are read back as the lengths they stand for, or with the documented error. */
  lemma {:induction false} RunsRead(cl: Lengths, bits: seq<bit>, p: nat, rs: seq<D.Run>, acc: Lengths, total: nat,
                                    e: nat)
    requires KraftSum(cl) <= 0x8000 && |cl| == 19 && D.AreRuns(rs) && D.CodedRuns(cl, rs)
    requires !D.Unroll(rs, acc, total).Uneven?
    requires Holds(bits, p, D.RunsBits(D.BookOf(cl), rs)) && e == p + |D.RunsBits(D.BookOf(cl), rs)|
    ensures Unrolls(cl, bits, p, rs, acc, total, e)
    decreases |rs|
  {
    if |acc| >= total {
      UnrollsEnd(cl, bits, p, acc, total);
    } else {
      var r := rs[0];
      var q := p + |D.BookOf(cl)(D.RunSymbol(r)) + D.RunExtra(r)|;
      FirstRun(bits, p, D.BookOf(cl), rs, e, q);
      RunParts(cl, bits, p, p + cl[D.RunSymbol(r)], r);
      RunReads(cl, bits, p, p + cl[D.RunSymbol(r)], r, acc, total, q);
      match RunStep(r, acc, total, q) {
        case LengthsBad(_) => UnrollsStop(cl, bits, p, rs, acc, total, e, q);
        case LengthsMore(_, acc') =>
          UnrollNext(rs, acc, total, q, acc');
          RunsRead(cl, bits, q, rs[1..], acc', total, e);
          UnrollsNext(cl, bits, p, rs, acc, total, e, q, acc');
      }
    }
  }

  lemma {:induction false} RefusedIff(ls: Lengths)
    ensures Usable(ls) <==> !D.Refused(ls)
  {
  }

  /** The lengths of both codes in one list. */
  lemma {:induction false} LengthsChecked(ls: Lengths, nlen: nat, e: nat)
    requires 257 <= nlen <= |ls|
    ensures var err := D.LengthsError(ls, nlen);
            HeaderWithLengths(ls, nlen, e) == if err != 0 then BadHeader(err) else Header(ls[..nlen], ls[nlen..], e)
  {
    RefusedIff(ls[..nlen]);
    RefusedIff(ls[nlen..]);
  }

  lemma {:induction false} NoRuns(c: D.Codes)
    requires D.AreCodes(c) && D.CodedRuns(c.cl, c.runs) && !D.Unroll(c.runs, [], c.nlen + c.ndist).Uneven?
    ensures exists i :: 0 <= i < 19 && c.cl[i] > 0
  {
    assert |c.runs| > 0;
    assert c.cl[D.RunSymbol(c.runs[0])] > 0;
  }

  /** Where the fields of the codes stand: the counts, the lengths that are sent, and the runs. */
  ghost predicate CodesAt(bits: seq<bit>, p: nat, c: D.Codes, e: nat)
    requires D.AreCodes(c)
  {
    && Holds(bits, p, D.CountsBits(c.nlen, c.ndist, c.ncode)) && Holds(bits, p + 14, D.SentBits(c.cl, 0, c.ncode))
    && Holds(bits, p + 14 + 3 * c.ncode, D.RunsBits(D.BookOf(c.cl), c.runs))
    && e == p + 14 + 3 * c.ncode + |D.RunsBits(D.BookOf(c.cl), c.runs)|
  }

  lemma {:induction false} ThreeParts(bits: seq<bit>, p: nat, a: seq<bit>, b: seq<bit>, c: seq<bit>, i: nat, j: nat,
                                      e: nat)
    requires Holds(bits, p, a + b + c) && e == p + |a + b + c| && i == p + |a| && j == i + |b|
    ensures Holds(bits, p, a) && Holds(bits, i, b) && Holds(bits, j, c) && e == j + |c|
  {
    HoldsSplit(bits, p, a + b, c);
    HoldsSplit(bits, p, a, b);
  }

  lemma {:induction false} FieldsStand(bits: seq<bit>, p: nat, c: D.Codes, e: nat)
    requires D.AreCodes(c) && Holds(bits, p, D.CodesBits(c)) && e == p + |D.CodesBits(c)|
    ensures CodesAt(bits, p, c, e)
  {
    SentLengths(c.cl, 0, c.ncode);
    ThreeParts(bits, p, D.CountsBits(c.nlen, c.ndist, c.ncode), D.SentBits(c.cl, 0, c.ncode),
               D.RunsBits(D.BookOf(c.cl), c.runs), p + 14, p + 14 + 3 * c.ncode, e);
  }

  /** The counts stand at p. */
  ghost predicate CountsAre(bits: seq<bit>, p: nat, nlen: nat, ndist: nat, ncode: nat) {
    forall u: bool {:trigger Open(u)} :: Open(u) ==>
      && p + 14 <= |bits| && BitsAt(bits, p, 5) + 257 == nlen && BitsAt(bits, p + 5, 5) + 1 == ndist
      && CodeLengthCount(bits, p + 10) == ncode
  }

  /** The fields in front of the code lengths. */
  lemma {:induction false} CountsRead(bits: seq<bit>, p: nat, nlen: nat, ndist: nat, ncode: nat)
    requires 257 <= nlen <= 288 && 1 <= ndist <= 32 && 4 <= ncode <= 19
    requires Holds(bits, p, D.CountsBits(nlen, ndist, ncode))
    ensures CountsAre(bits, p, nlen, ndist, ncode)
  {
    SmallPowers();
    ThreeParts(bits, p, D.Number(nlen - 257, 5), D.Number(ndist - 1, 5), D.Number(ncode - 4, 4), p + 5, p + 10, p + 14);
    NumberReads(bits, p, nlen - 257, 5);
    NumberReads(bits, p + 5, ndist - 1, 5);
    NumberReads(bits, p + 10, ncode - 4, 4);
  }

  lemma {:induction false} UnrollsIs(cl: Lengths, bits: seq<bit>, p: nat, rs: seq<D.Run>, acc: Lengths, total: nat,
                                     e: nat)
    requires Unrolls(cl, bits, p, rs, acc, total, e)
    ensures |cl| == 19 && |acc| <= total
    ensures D.Unroll(rs, acc, total).Whole? ==> D.AreLengths(D.Unroll(rs, acc, total).ls)
    ensures ReadLengths(cl, bits, p, acc, total) == LengthsOf(D.Unroll(rs, acc, total), e)
  {
    assert Open(true);
  }

  lemma {:induction false} LengthsFrom(bits: seq<bit>, p: nat, q: nat, cl: Lengths, n: nat, total: nat,
                                       r: LengthsResult)
    requires n <= 19 && p + 3 * n <= |bits| && |cl| == 19 && CodeLengthLengths(bits, p, n) == cl
             && KraftSum(cl) == 0x8000
    requires q == SentEnd(p, n) && ReadLengths(cl, bits, q, [], total) == r
    ensures AllLengths(bits, p, n, total) == r
  {
  }

  /** The runs stand for u. */
  ghost predicate StandFor(rs: seq<D.Run>, total: nat, u: D.Unrolled) {
    forall w: bool {:trigger Open(w)} :: Open(w) ==> u == D.Unroll(rs, [], total) && !u.Uneven?
  }

  lemma {:induction false} StandForRead(cl: Lengths, bits: seq<bit>, q: nat, rs: seq<D.Run>, total: nat, e: nat,
                                        u: D.Unrolled)
    requires KraftSum(cl) <= 0x8000 && |cl| == 19 && D.AreRuns(rs) && D.CodedRuns(cl, rs) && StandFor(rs, total, u)
    requires Holds(bits, q, D.RunsBits(D.BookOf(cl), rs)) && e == q + |D.RunsBits(D.BookOf(cl), rs)|
    ensures u.Whole? ==> D.AreLengths(u.ls) && |u.ls| == total
    ensures ReadLengths(cl, bits, q, [], total) == LengthsOf(u, e)
  {
    assert Open(true);
    UnrollLengths(rs, [], total);
    RunsRead(cl, bits, q, rs, [], total, e);
    UnrollsIs(cl, bits, q, rs, [], total, e);
  }

  lemma {:induction false} LengthsRead(bits: seq<bit>, p: nat, q: nat, cl: seq<nat>, n: nat, rs: seq<D.Run>, total: nat,
                                       e: nat, u: D.Unrolled)
    requires |cl| == 19 && n <= 19 && (forall s :: 0 <= s < 19 ==> cl[s] <= 7) && D.NotSent(cl, n)
    requires KraftSum(cl) == 0x8000 && D.AreRuns(rs) && D.CodedRuns(cl, rs)
    requires StandFor(rs, total, u) && q == SentEnd(p, n)
    requires Holds(bits, p, D.SentBits(cl, 0, n))
    requires Holds(bits, q, D.RunsBits(D.BookOf(cl), rs)) && e == q + |D.RunsBits(D.BookOf(cl), rs)|
    ensures u.Whole? ==> D.AreLengths(u.ls) && |u.ls| == total
    ensures AllLengths(bits, p, n, total) == LengthsOf(u, e)
  {
    CodeLengthsRead(bits, p, cl, n);
    StandForRead(cl, bits, q, rs, total, e, u);
    LengthsFrom(bits, p, q, cl, n, total, LengthsOf(u, e));
  }

  lemma {:induction false} BadCodeLengths(bits: seq<bit>, p: nat, cl: seq<nat>, n: nat, total: nat)
    requires |cl| == 19 && n <= 19 && (forall s :: 0 <= s < 19 ==> cl[s] <= 7) && D.NotSent(cl, n)
    requires Holds(bits, p, D.SentBits(cl, 0, n)) && KraftSum(cl) != 0x8000 && exists i :: 0 <= i < 19 && cl[i] > 0
    ensures AllLengths(bits, p, n, total) == Bad(-4)
  {
    CodeLengthsRead(bits, p, cl, n);
  }

  /** What the lengths that runs stand for lead to. */
  function Verdict(u: D.Unrolled, nlen: nat, e: nat): Header
    requires u.Whole? ==> D.AreLengths(u.ls) && nlen <= |u.ls|
  {
    match u
    case NoFirst => BadHeader(-5)
    case TooMany => BadHeader(-6)
    case Uneven => BadHeader(0)
    case Whole(ls) =>
      if D.LengthsError(ls, nlen) != 0 then BadHeader(D.LengthsError(ls, nlen)) else Header(ls[..nlen], ls[nlen..], e)
  }

  lemma {:induction false} HeaderFrom(bits: seq<bit>, p: nat, nlen: nat, ndist: nat, ncode: nat, r: LengthsResult)
    requires CountsAre(bits, p, nlen, ndist, ncode) && nlen <= 286 && ndist <= 30 && ncode <= 19
    requires AllLengths(bits, p + 14, ncode, nlen + ndist) == r
    ensures DynamicHeader(bits, p) ==
            match r
            case Bad(err) => BadHeader(err)
            case Read(q, ls) => if 257 <= nlen <= |ls| then HeaderWithLengths(ls, nlen, q) else BadHeader(0)
  {
    assert Open(true);
  }

  lemma {:induction false} VerdictIs(bits: seq<bit>, p: nat, o: nat, nlen: nat, ndist: nat, ncode: nat, total: nat,
                                     u: D.Unrolled, e: nat)
    requires CountsAre(bits, p, nlen, ndist, ncode) && 257 <= nlen <= 286 && ndist <= 30 && ncode <= 19
    requires total == nlen + ndist && (u.Whole? ==> D.AreLengths(u.ls) && |u.ls| == total)
    requires o == p + 14 && AllLengths(bits, o, ncode, total) == LengthsOf(u, e)
    ensures DynamicHeader(bits, p) == Verdict(u, nlen, e)
  {
    HeaderFrom(bits, p, nlen, ndist, ncode, LengthsOf(u, e));
    if u.Whole? { LengthsChecked(u.ls, nlen, e); }
  }

  /** h is what the encoder means by its codes: both lists of lengths, or the documented error. */
  ghost predicate Heads(c: D.Codes, e: nat, h: Header)
    requires D.AreCodes(c)
  {
    forall w: bool {:trigger Open(w)} :: Open(w) ==>
      var u := D.Unroll(c.runs, [], c.nlen + c.ndist);
      if D.CodesError(c) != 0 then h == BadHeader(D.CodesError(c))
      else u.Whole? && D.AreLengths(u.ls) && c.nlen <= |u.ls| && h == Header(u.ls[..c.nlen], u.ls[c.nlen..], e)
  }

  lemma {:induction false} HeadsMany(c: D.Codes, e: nat, h: Header)
    requires D.AreCodes(c) && Heads(c, e, h) && (c.nlen > 286 || c.ndist > 30)
    ensures h == BadHeader(-3)
  {
    assert Open(true);
  }

  lemma {:induction false} HeadsBad(c: D.Codes, e: nat, h: Header)
    requires D.AreCodes(c) && Heads(c, e, h) && c.nlen <= 286 && c.ndist <= 30
    requires KraftSum(c.cl) != 0x8000 && exists i :: 0 <= i < 19 && c.cl[i] > 0
    ensures h == BadHeader(-4)
  {
    assert Open(true);
  }

  lemma {:induction false} HeadsVerdict(c: D.Codes, e: nat, total: nat, u: D.Unrolled, h: Header)
    requires D.AreCodes(c) && total == c.nlen + c.ndist && StandFor(c.runs, total, u) && Heads(c, e, h)
    requires KraftSum(c.cl) == 0x8000 && c.nlen <= 286 && c.ndist <= 30
    requires u.Whole? ==> D.AreLengths(u.ls) && |u.ls| == total
    ensures h == Verdict(u, c.nlen, e)
  {
    assert Open(true);
  }

  lemma {:induction false} PartsRead(bits: seq<bit>, p: nat, o: nat, q: nat, nlen: nat, ndist: nat, n: nat,
                                     cl: seq<nat>,
                                     rs: seq<D.Run>, total: nat, e: nat, u: D.Unrolled)
    requires 257 <= nlen <= 286 && 1 <= ndist <= 30 && 4 <= n <= 19 && total == nlen + ndist
    requires o == p + 14 && q == SentEnd(o, n)
    requires |cl| == 19 && (forall s :: 0 <= s < 19 ==> cl[s] <= 7) && D.NotSent(cl, n)
    requires KraftSum(cl) == 0x8000 && D.AreRuns(rs) && D.CodedRuns(cl, rs) && StandFor(rs, total, u)
    requires Holds(bits, p, D.CountsBits(nlen, ndist, n)) && Holds(bits, o, D.SentBits(cl, 0, n))
    requires Holds(bits, q, D.RunsBits(D.BookOf(cl), rs)) && e == q + |D.RunsBits(D.BookOf(cl), rs)|
    ensures u.Whole? ==> D.AreLengths(u.ls) && |u.ls| == total
    ensures DynamicHeader(bits, p) == Verdict(u, nlen, e)
  {
    CountsRead(bits, p, nlen, ndist, n);
    LengthsRead(bits, o, q, cl, n, rs, total, e, u);
    VerdictIs(bits, p, o, nlen, ndist, n, total, u, e);
  }

  lemma {:induction false} PartsStand(bits: seq<bit>, p: nat, o: nat, q: nat, c: D.Codes, e: nat)
    requires D.AreCodes(c) && CodesAt(bits, p, c, e) && o == p + 14 && q == SentEnd(o, c.ncode)
    ensures Holds(bits, p, D.CountsBits(c.nlen, c.ndist, c.ncode)) && Holds(bits, o, D.SentBits(c.cl, 0, c.ncode))
    ensures Holds(bits, q, D.RunsBits(D.BookOf(c.cl), c.runs)) && e == q + |D.RunsBits(D.BookOf(c.cl), c.runs)|
  {
  }

  lemma {:induction false} GoodCodesRead(bits: seq<bit>, p: nat, c: D.Codes, total: nat, e: nat, u: D.Unrolled)
    requires D.AreCodes(c) && D.CodedRuns(c.cl, c.runs) && total == c.nlen + c.ndist && StandFor(c.runs, total, u)
    requires CodesAt(bits, p, c, e) && KraftSum(c.cl) == 0x8000 && c.nlen <= 286 && c.ndist <= 30
    ensures u.Whole? ==> D.AreLengths(u.ls) && |u.ls| == total
    ensures DynamicHeader(bits, p) == Verdict(u, c.nlen, e)
  {
    var o := p + 14;
    var q := SentEnd(o, c.ncode);
    PartsStand(bits, p, o, q, c, e);
    PartsRead(bits, p, o, q, c.nlen, c.ndist, c.ncode, c.cl, c.runs, total, e, u);
  }

  lemma {:induction false} BadCodesRead(bits: seq<bit>, p: nat, c: D.Codes, e: nat)
    requires D.AreCodes(c) && CodesAt(bits, p, c, e) && c.nlen <= 286 && c.ndist <= 30
    requires KraftSum(c.cl) != 0x8000 && exists i :: 0 <= i < 19 && c.cl[i] > 0
    ensures DynamicHeader(bits, p) == BadHeader(-4)
  {
    var o, total := p + 14, c.nlen + c.ndist;
    PartsStand(bits, p, o, SentEnd(o, c.ncode), c, e);
    CountsRead(bits, p, c.nlen, c.ndist, c.ncode);
    BadCodeLengths(bits, o, c.cl, c.ncode, total);
    BadFrom(bits, p, o, c.nlen, c.ndist, c.ncode, total);
  }

  lemma {:induction false} BadFrom(bits: seq<bit>, p: nat, o: nat, nlen: nat, ndist: nat, ncode: nat, total: nat)
    requires CountsAre(bits, p, nlen, ndist, ncode) && 257 <= nlen <= 286 && ndist <= 30 && ncode <= 19
    requires total == nlen + ndist && o == p + 14 && AllLengths(bits, o, ncode, total) == Bad(-4)
    ensures DynamicHeader(bits, p) == BadHeader(-4)
  {
    HeaderFrom(bits, p, nlen, ndist, ncode, Bad(-4));
  }

  lemma {:induction false} ManyCodesRead(bits: seq<bit>, p: nat, c: D.Codes, e: nat)
    requires D.AreCodes(c) && CodesAt(bits, p, c, e) && (c.nlen > 286 || c.ndist > 30)
    ensures DynamicHeader(bits, p) == BadHeader(-3)
  {
    CountsRead(bits, p, c.nlen, c.ndist, c.ncode);
    assert Open(true);
  }

  lemma {:induction false} SomeCode(c: D.Codes, total: nat, u: D.Unrolled)
    requires D.AreCodes(c) && D.CodedRuns(c.cl, c.runs) && total == c.nlen + c.ndist && StandFor(c.runs, total, u)
    ensures exists i :: 0 <= i < 19 && c.cl[i] > 0
  {
    assert Open(true);
    NoRuns(c);
  }

  /** Codes that are sent come back, or are refused with the documented error. */
  lemma {:induction false} CodesRead(bits: seq<bit>, p: nat, c: D.Codes, total: nat, u: D.Unrolled, e: nat, h: Header)
    requires D.AreCodes(c) && D.CodedRuns(c.cl, c.runs) && total == c.nlen + c.ndist && StandFor(c.runs, total, u)
    requires Holds(bits, p, D.CodesBits(c)) && e == p + |D.CodesBits(c)| && Heads(c, e, h)
    ensures DynamicHeader(bits, p) == h
  {
    FieldsStand(bits, p, c, e);
    SomeCode(c, total, u);
    if c.nlen > 286 || c.ndist > 30 {
      ManyCodesRead(bits, p, c, e);
      HeadsMany(c, e, h);
    } else if KraftSum(c.cl) == 0x8000 {
      GoodCodesRead(bits, p, c, total, e, u);
      HeadsVerdict(c, e, total, u, h);
    } else {
      BadCodesRead(bits, p, c, e);
      HeadsBad(c, e, h);
    }
  }
}
