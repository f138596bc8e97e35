/**
 Input that is cut off: what the reference decoder makes of a prefix of a stream is what it makes of the
 stream, or the error for missing input, with a part of the output.
 */
module DeflatePrefix {
  import opened Bits
  import opened Canonical
  import opened Rfc1951

  const MISSING := 2

  lemma {:induction false} CodeBitsCut(bits: seq<bit>, n: nat, p: nat, l: nat)
    requires p + l <= n <= |bits|
    ensures CodeBits(bits[..n], p, l) == CodeBits(bits, p, l)
  {
    if l > 0 { CodeBitsCut(bits, n, p, l - 1); }
  }

  lemma {:induction false} BitsAtCut(bits: seq<bit>, n: nat, p: nat, l: nat)
    requires p + l <= n <= |bits|
    ensures BitsAt(bits[..n], p, l) == BitsAt(bits, p, l)
    decreases l
  {
    if l > 0 { BitsAtCut(bits, n, p + 1, l - 1); }
  }

  lemma {:induction false} MatchesCut(ls: Lengths, bits: seq<bit>, n: nat, p: nat, s: nat)
    requires n <= |bits|
    ensures Matches(ls, bits[..n], p, s) <==> Matches(ls, bits, p, s) && p + ls[s] <= n
  {
    if s < |ls| && p + ls[s] <= n { CodeBitsCut(bits, n, p, ls[s]); }
  }

  lemma {:induction false} SymbolCut(ls: Lengths, bits: seq<bit>, n: nat, p: nat)
    requires n <= |bits|
    ensures NextSymbol(ls, bits[..n], p) == NextSymbol(ls, bits, p) || NextSymbol(ls, bits[..n], p) == EndOfInput
    ensures var d := NextSymbol(ls, bits, p); d.Symbol? && d.sym < |ls| && p + ls[d.sym] <= n ==>
              NextSymbol(ls, bits[..n], p) == d
  {
    var d := NextSymbol(ls, bits, p);
    forall s: nat ensures Matches(ls, bits[..n], p, s) <==> Matches(ls, bits, p, s) && p + ls[s] <= n {
      MatchesCut(ls, bits, n, p, s);
    }
    if s: nat :| Matches(ls, bits[..n], p, s) {
      FoundSymbol(ls, bits, p, s);
      FoundSymbol(ls, bits[..n], p, s);
    } else if d.Symbol? {
      var s: nat :| d == Symbol(s) && Matches(ls, bits, p, s);
      assert ls[s] <= MAX_BITS;
    }
  }

  // ----- the data of a block -----

  lemma {:induction false} DistanceCut(dist: Lengths, bits: seq<bit>, n: nat, p: nat)
    requires n <= |bits| && |dist| <= 30
    ensures var r, r' := Distance(dist, bits, p), Distance(dist, bits[..n], p);
            (r' == r || r' == BadDist(MISSING)) && (r.Dist? && r.next <= n ==> r' == r)
  {
    SymbolCut(dist, bits, n, p);
    match NextSymbol(dist, bits, p)
    case Symbol(sym) =>
      var q, dx := p + dist[sym], DistExtra(sym);
      if q + dx <= n { BitsAtCut(bits, n, q, dx); }
    case _ =>
  }

  lemma {:induction false} PairCut(dist: Lengths, bits: seq<bit>, n: nat, p: nat, sym: nat)
    requires n <= |bits| && |dist| <= 30 && sym > 256
    ensures var r, r' := LengthDistance(dist, bits, p, sym), LengthDistance(dist, bits[..n], p, sym);
            (r' == r || r' == BadCopy(MISSING)) && (r.Copy? && r.next <= n ==> r' == r)
  {
    if sym < 286 {
      var lx := LengthExtra(sym - 257);
      var q := p + lx;
      if q <= n {
        BitsAtCut(bits, n, p, lx);
        DistanceCut(dist, bits, n, q);
        PairFrom(dist, bits, p, q, sym, lx, Distance(dist, bits, q));
        PairFrom(dist, bits[..n], p, q, sym, lx, Distance(dist, bits[..n], q));
      }
    }
  }

  lemma {:induction false} PairFrom(dist: Lengths, bits: seq<bit>, p: nat, q: nat, sym: nat, lx: nat, r: DistResult)
    requires |dist| <= 30 && 256 < sym < 286 && lx == LengthExtra(sym - 257) && q == p + lx <= |bits|
    requires r == Distance(dist, bits, q)
    ensures LengthDistance(dist, bits, p, sym) ==
            match r
            case BadDist(err) => BadCopy(err)
            case Dist(d, next) => Copy(LengthBase(sym - 257) + BitsAt(bits, p, lx), d, next)
  {
  }

  lemma {:induction false} StepCut(lit: Lengths, dist: Lengths, bits: seq<bit>, n: nat, p: nat, out: seq<byte>,
                                   room: nat)
    requires n <= |bits| && |out| <= room && |dist| <= 30
    ensures var st, st' := CodesStep(lit, dist, bits, p, out, room), CodesStep(lit, dist, bits[..n], p, out, room);
            && (st' == st || st' == Stop(Fail(MISSING, out)))
            && (st.Continue? && st.next <= n ==> st' == st)
            && (st.Stop? && st.r.Done? && st.r.pos <= n ==> st' == st)
  {
    SymbolCut(lit, bits, n, p);
    match NextSymbol(lit, bits, p)
    case Symbol(sym) => if sym > 256 { PairCut(dist, bits, n, p + lit[sym], sym); }
    case _ =>
  }

  /** The result for the prefix is the same, or input is missing and less is output. */
  predicate Cut(r: Outcome, r': Outcome, n: nat) {
    && (r' == r || (r' == Fail(MISSING, r'.out) && r'.out <= r.out))
    && (r.Done? && r.pos <= n ==> r' == r)
  }

  lemma {:induction false} CodesCut(lit: Lengths, dist: Lengths, bits: seq<bit>, n: nat, p: nat, out: seq<byte>,
                                    room: nat)
    requires n <= |bits| && |out| <= room && |dist| <= 30
    ensures Cut(Codes(lit, dist, bits, p, out, room), Codes(lit, dist, bits[..n], p, out, room), n)
    decreases |bits| - p
  {
    StepCut(lit, dist, bits, n, p, out, room);
    match CodesStep(lit, dist, bits, p, out, room)
    case Stop(_) =>
    case Continue(q, out') => CodesCut(lit, dist, bits, n, q, out', room);
  }

  // ----- the codes of a dynamic block -----

  lemma {:induction false} LengthsStepCut(cl: Lengths, bits: seq<bit>, n: nat, p: nat, acc: Lengths, total: nat)
    requires n <= |bits| && |acc| < total && |cl| == 19
    ensures var st, st' := ReadLengthsStep(cl, bits, p, acc, total), ReadLengthsStep(cl, bits[..n], p, acc, total);
            (st' == st || st' == LengthsBad(MISSING)) && (st.LengthsMore? && st.next <= n ==> st' == st)
  {
    SymbolCut(cl, bits, n, p);
    match NextSymbol(cl, bits, p)
    case Symbol(sym) =>
      var q, extra := p + cl[sym], if sym == 16 then 2 else if sym == 17 then 3 else 7;
      if sym >= 16 && q + extra <= n { BitsAtCut(bits, n, q, extra); }
    case _ =>
  }

  lemma {:induction false} LengthsCut(cl: Lengths, bits: seq<bit>, n: nat, p: nat, acc: Lengths, total: nat)
    requires n <= |bits| && |acc| <= total && |cl| == 19
    ensures var r, r' := ReadLengths(cl, bits, p, acc, total), ReadLengths(cl, bits[..n], p, acc, total);
            (r' == r || r' == Bad(MISSING)) && (r.Read? && r.pos <= n ==> r' == r)
    decreases |bits| - p
  {
    if |acc| < total {
      LengthsStepCut(cl, bits, n, p, acc, total);
      match ReadLengthsStep(cl, bits, p, acc, total)
      case LengthsBad(_) =>
      case LengthsMore(q, acc') => LengthsCut(cl, bits, n, q, acc', total);
    }
  }

  lemma {:induction false} CodeLengthsCut(bits: seq<bit>, n: nat, p: nat, ncode: nat)
    requires ncode <= 19 && p + 3 * ncode <= n <= |bits|
    ensures CodeLengthLengths(bits[..n], p, ncode) == CodeLengthLengths(bits, p, ncode)
  {
    forall s | 0 <= s < 19
      ensures SentLength(bits[..n], p, ncode, SentAt(s)) == SentLength(bits, p, ncode, SentAt(s))
    {
      if SentAt(s) < ncode { BitsAtCut(bits, n, p + 3 * SentAt(s), 3); }
    }
  }

  lemma {:induction false} AllLengthsCut(bits: seq<bit>, n: nat, p: nat, ncode: nat, total: nat)
    requires ncode <= 19 && n <= |bits|
    ensures var r, r' := AllLengths(bits, p, ncode, total), AllLengths(bits[..n], p, ncode, total);
            (r' == r || r' == Bad(MISSING)) && (r.Read? && r.pos <= n ==> r' == r)
  {
    var q := SentEnd(p, ncode);
    if q <= n {
      CodeLengthsCut(bits, n, p, ncode);
      var cl := CodeLengthLengths(bits, p, ncode);
      LengthsCut(cl, bits, n, q, [], total);
    }
  }

  lemma {:induction false} CountsFrom(bits: seq<bit>, p: nat, nlen: nat, ndist: nat, ncode: nat, total: nat,
                                      r: LengthsResult)
    requires 257 <= nlen && ndist <= 30 && ncode <= 19 && total == nlen + ndist
             && r == AllLengths(bits, p, ncode, total)
    ensures HeaderWithCounts(bits, p, nlen, ndist, ncode) ==
            match r
            case Bad(err) => BadHeader(err)
            case Read(q, ls) => if nlen <= |ls| then HeaderWithLengths(ls, nlen, q) else BadHeader(0)
  {
  }

  lemma {:induction false} CountsCut(bits: seq<bit>, n: nat, p: nat, nlen: nat, ndist: nat, ncode: nat)
    requires 257 <= nlen && ndist <= 30 && ncode <= 19 && n <= |bits|
    ensures var h, h' := HeaderWithCounts(bits, p, nlen, ndist, ncode),
            HeaderWithCounts(bits[..n], p, nlen, ndist, ncode);
            (h' == h || h' == BadHeader(MISSING)) && (h.Header? && h.next <= n ==> h' == h)
  {
    var total := nlen + ndist;
    AllLengthsCut(bits, n, p, ncode, total);
    CountsFrom(bits, p, nlen, ndist, ncode, total, AllLengths(bits, p, ncode, total));
    CountsFrom(bits[..n], p, nlen, ndist, ncode, total, AllLengths(bits[..n], p, ncode, total));
  }

  lemma {:induction false} HeaderCut(bits: seq<bit>, n: nat, p: nat)
    requires n <= |bits|
    ensures var h, h' := DynamicHeader(bits, p), DynamicHeader(bits[..n], p);
            (h' == h || h' == BadHeader(MISSING)) && (h.Header? && h.next <= n ==> h' == h)
  {
    if p + 14 <= n {
      BitsAtCut(bits, n, p, 5);
      BitsAtCut(bits, n, p + 5, 5);
      BitsAtCut(bits, n, p + 10, 4);
      var nlen, ndist, ncode := BitsAt(bits, p, 5) + 257, BitsAt(bits, p + 5, 5) + 1, CodeLengthCount(bits, p + 10);
      HeaderFrom(bits, p, p + 14, nlen, ndist, ncode);
      HeaderFrom(bits[..n], p, p + 14, nlen, ndist, ncode);
      if nlen <= 286 && ndist <= 30 { CountsCut(bits, n, p + 14, nlen, ndist, ncode); }
    } else {
      HeaderShort(bits[..n], p);
    }
  }

  lemma {:induction false} HeaderShort(bits: seq<bit>, p: nat)
    requires p + 14 > |bits|
    ensures DynamicHeader(bits, p) == BadHeader(MISSING)
  {
  }

  lemma {:induction false} HeaderFrom(bits: seq<bit>, p: nat, q: nat, nlen: nat, ndist: nat, ncode: nat)
    requires q == p + 14 <= |bits| && nlen == BitsAt(bits, p, 5) + 257 && ndist == BitsAt(bits, p + 5, 5) + 1
    requires ncode == CodeLengthCount(bits, p + 10)
    ensures DynamicHeader(bits, p) ==
            if nlen > 286 || ndist > 30 then BadHeader(-3) else HeaderWithCounts(bits, q, nlen, ndist, ncode)
  {
  }

  lemma {:induction false} DynamicCut(bits: seq<bit>, n: nat, p: nat, out: seq<byte>, room: nat)
    requires n <= |bits| && |out| <= room
    ensures Cut(Dynamic(bits, p, out, room), Dynamic(bits[..n], p, out, room), n)
  {
    HeaderCut(bits, n, p);
    match DynamicHeader(bits, p)
    case BadHeader(_) =>
    case Header(lit, dist, q) => CodesCut(lit, dist, bits, n, q, out, room);
  }

  // ----- streams -----

  lemma {:induction false} PrefixBits(input: seq<byte>, k: nat)
    requires k <= |input|
    ensures ToBits(input[..k]) == ToBits(input)[..8 * k]
  {
  }

  lemma {:induction false} StoredCut(input: seq<byte>, k: nat, p: nat, out: seq<byte>, room: nat)
    requires k <= |input| && |out| <= room
    ensures Cut(Stored(input, p, out, room), Stored(input[..k], p, out, room), 8 * k)
  {
    var i := (p + 7) / 8;
    if i + 4 <= k {
      var len := StoredLength(input, i);
      assert StoredLength(input[..k], i) == len;
      if len >= 0 && i + 4 + len <= k { assert input[..k][i + 4..i + 4 + len] == input[i + 4..i + 4 + len]; }
    }
  }

  lemma {:induction false} BlockCut(input: seq<byte>, k: nat, kind: nat, p: nat, out: seq<byte>, room: nat)
    requires k <= |input| && |out| <= room
    ensures Cut(BlockData(input, kind, p, out, room), BlockData(input[..k], kind, p, out, room), 8 * k)
  {
    PrefixBits(input, k);
    if kind == 0 {
      StoredCut(input, k, p, out, room);
    } else if kind == 1 {
      CodesCut(FixedLit(), FixedDist(), ToBits(input), 8 * k, p, out, room);
    } else if kind == 2 {
      DynamicCut(ToBits(input), 8 * k, p, out, room);
    }
  }

  /** A prefix of the input gives the same result, or reports missing input with a part of the output. */
  lemma {:induction false} InflateCut(input: seq<byte>, k: nat, p: nat, out: seq<byte>, room: nat)
    requires k <= |input| && |out| <= room
    ensures Cut(Inflate(input, p, out, room), Inflate(input[..k], p, out, room), 8 * k)
    decreases 8 * |input| - p
  {
    PrefixBits(input, k);
    if p + 3 <= 8 * k {
      BitsAtCut(ToBits(input), 8 * k, p + 1, 2);
      BlockCut(input, k, BitsAt(ToBits(input), p + 1, 2), p + 3, out, room);
      var r := Block(input, p, out, room);
      if r.Done? && ToBits(input)[p] != 1 { InflateCut(input, k, r.pos, r.out, room); }
    }
  }

  /** A stream that inflates does so from a prefix exactly if the prefix holds all of it. */
  lemma {:induction false} PrefixInflates(input: seq<byte>, k: nat, room: nat)
    requires k <= |input| && Inflate(input, 0, [], room).Done?
    ensures var r, r' := Inflate(input, 0, [], room), Inflate(input[..k], 0, [], room);
            if r.pos <= 8 * k then r' == r else r' == Fail(MISSING, r'.out) && r'.out <= r.out
  {
    InflateCut(input, k, 0, [], room);
  }
}
