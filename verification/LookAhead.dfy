/** Where a decoder that looks up whole tables finds the bits it asks for. The
    positions follow the reference decoder; what has been output plays no part. */
module LookAhead {
  import opened Common
  import opened Bits
  import opened Canonical
  import opened HuftPrepare
  import opened HuftSizes
  import opened Deflate

  /** The limits inflate.c gives huft_build: for the codes of a dynamic block,
      for its code lengths, and for the fixed codes. */
  const LITERAL_LIMIT := 9
  const DISTANCE_LIMIT := 6
  const LENGTH_LIMIT := 7
  const FIXED_LITERAL_LIMIT := 7
  const FIXED_DISTANCE_LIMIT := 5

  /** The look-up at bit `p` finds a code and all the bits it asks for. */
  ghost predicate Supplied(lens: seq<nat>, ask: seq<nat>, s: seq<bool>, p: nat)
    requires |ask| == |lens|
  {
    p <= |s| && var d := Decode(lens, s[p..]); d.Found? && p + ask[d.sym] <= |s|
  }

  /** Each look-up of the element at bit `p` does. */
  ghost predicate TokenFed(lit: seq<nat>, dist: seq<nat>, la: seq<nat>, da: seq<nat>, s: seq<bool>, p: nat)
    requires |la| == |lit| && |da| == |dist| && p <= |s|
  {
    && Supplied(lit, la, s, p)
    && var d := Decode(lit, s[p..]);
       (d.sym > END_OF_BLOCK ==>
          var l := MatchLength(d.sym, s, p + d.len);
          l.Some? ==> Supplied(dist, da, s, l.value.1))
  }

  /** Where the coded data of a block end, if every look-up is fed. */
  ghost function Fed(lit: seq<nat>, dist: seq<nat>, la: seq<nat>, da: seq<nat>, s: seq<bool>, p: nat): (r: Option<nat>)
    requires |la| == |lit| && |da| == |dist|
    ensures r.Some? ==> p < r.value <= |s|
    decreases |s| - p
  {
    if p > |s| || !TokenFed(lit, dist, la, da, s, p) then None
    else
      match NextToken(lit, dist, s, p)
      case Literal(_, q) => Fed(lit, dist, la, da, s, q)
      case Match(_, _, q) => Fed(lit, dist, la, da, s, q)
      case End(q) => Some(q)
      case Wrong => None
  }

  /** The two alphabets of a block, and what their look-ups ask for. */
  datatype Codebook = Codebook(lit: seq<nat>, dist: seq<nat>, la: seq<nat>, da: seq<nat>) {
    ghost predicate Valid() { |la| == |lit| && |da| == |dist| }

    ghost function Next(s: seq<bool>, p: nat): Token
      requires p <= |s|
    {
      NextToken(lit, dist, s, p)
    }

    ghost predicate Feeds(s: seq<bool>, p: nat)
      requires Valid() && p <= |s|
    {
      TokenFed(lit, dist, la, da, s, p)
    }

    ghost function BlockEnd(s: seq<bool>, p: nat): Option<nat>
      requires Valid()
    {
      Fed(lit, dist, la, da, s, p)
    }
  }

  /** Every look-up in the code lengths of both alphabets is fed. */
  ghost predicate LengthsFed(cl: seq<nat>, ca: seq<nat>, s: seq<bool>, p: nat, n: nat, ll: seq<nat>)
    requires |ca| == |cl|
    decreases |s| - p
  {
    |ll| >= n ||
    ( && Supplied(cl, ca, s, p)
      && var d := Decode(cl, s[p..]);
         if d.sym < 16 then LengthsFed(cl, ca, s, p + d.len, n, ll + [d.sym])
         else
           var bits := if d.sym == 16 then 2 else if d.sym == 17 then 3 else 7;
           var x := Number(s, p + d.len, bits);
           x.None? || LengthsFed(cl, ca, s, p + d.len + bits, n,
             ll + Repeat((if d.sym == 18 then 11 else 3) + x.value, if d.sym == 16 && ll != [] then ll[|ll| - 1] else 0)))
  }

  ghost predicate HeaderFed(s: seq<bool>, p: nat) {
    match (Number(s, p, 5), Number(s, p + 5, 5), Number(s, p + 10, 4))
    case (Some(hlit), Some(hdist), Some(hclen)) =>
      var nb := 4 + hclen;
      nb <= 19 && p + 14 + 3 * nb <= |s| &&
      var cl := CodeLengthCode(s, p + 14, nb);
      LengthsFed(cl, AsksOf(cl, LENGTH_LIMIT), s, p + 14 + 3 * nb, 258 + hlit + hdist, [])
    case _ => false
  }

  ghost function DynamicFed(s: seq<bool>, p: nat): (r: Option<nat>)
    ensures r.Some? ==> p < r.value <= |s|
  {
    match Codings(s, p)
    case Some(c) =>
      if HeaderFed(s, p) then Fed(c.lit, c.dist, AsksOf(c.lit, LITERAL_LIMIT), AsksOf(c.dist, DISTANCE_LIMIT), s, c.p) else None
    case None => None
  }

  ghost function FixedFed(s: seq<bool>, p: nat): (r: Option<nat>)
    ensures r.Some? ==> p < r.value <= |s|
  {
    Fed(FixedLiterals(), FixedDistances(), AsksOf(FixedLiterals(), FIXED_LITERAL_LIMIT), AsksOf(FixedDistances(), FIXED_DISTANCE_LIMIT), s, p)
  }

  /** A stored block has no look-ups. */
  ghost function StoredFed(s: seq<bool>, p: nat): (r: Option<nat>)
    ensures r.Some? ==> p < r.value <= |s|
  {
    match Stored(s, p, [])
    case Good(_, q) => Some(q)
    case Bad(_) => None
  }

  ghost function BlockFed(kind: nat, s: seq<bool>, p: nat): (r: Option<nat>)
    ensures r.Some? ==> p < r.value <= |s|
  {
    if kind == 0 then StoredFed(s, p)
    else if kind == 1 then FixedFed(s, p)
    else if kind == 2 then DynamicFed(s, p)
    else None
  }

  /** Where the last block ends, if every look-up of the stream is fed. */
  ghost function StreamFed(s: seq<bool>, p: nat): (r: Option<nat>)
    ensures r.Some? ==> p < r.value <= |s|
    decreases |s| - p
  {
    if p + 3 > |s| then None
    else
      match BlockFed(Lsb(s[p + 1..p + 3]), s, p + 3)
      case Some(q) => if s[p] then Some(q) else StreamFed(s, q)
      case None => None
  }

  // ---------------------------------------------------------------- one more byte

  /** No look-up asks for more than `over` bits beyond the code it finds, and
      that of end-of-block for none. */
  ghost predicate Modest(lens: seq<nat>, ask: seq<nat>, over: nat)
    requires |ask| == |lens|
  {
    && (forall sym :: 0 <= sym < |lens| && lens[sym] > 0 ==> ask[sym] <= lens[sym] + over)
    && (|lens| > 256 ==> ask[256] <= lens[256])
  }

  lemma AsksModest(lens: seq<nat>, m0: nat)
    requires m0 <= 9
    ensures Modest(lens, AsksOf(lens, m0), OVERHANG)
  {
    hide AskedFor, Asked;
    forall sym | 0 <= sym < |lens| ensures AsksOf(lens, m0)[sym] <= lens[sym] + if sym == 256 then 0 else OVERHANG {
      AskAtMost(lens, m0, sym);
    }
  }

  lemma AskAtMost(lens: seq<nat>, m0: nat, sym: nat)
    requires m0 <= 9 && sym < |lens|
    ensures AskedFor(lens, m0, sym) <= lens[sym] + if sym == 256 then 0 else OVERHANG
  {
    hide Asked, Sized, Clamped;
    if p, code :| Sized(lens, p) && Clamped(p, m0) && CodeOf(lens, sym, code) {
      AskRange(lens, m0, p, sym, code);
    }
  }

  /** A look-up whose code is followed by enough bits is fed. */
  lemma SuppliedWithSpare(lens: seq<nat>, ask: seq<nat>, s: seq<bool>, p: nat, over: nat)
    requires |ask| == |lens| && Modest(lens, ask, over) && p <= |s|
    requires var d := Decode(lens, s[p..]); d.Found? && p + d.len + (if d.sym == END_OF_BLOCK then 0 else over) <= |s|
    ensures Supplied(lens, ask, s, p)
  {
    hide DecodeFrom, Msb, Code;
    var d := Decode(lens, s[p..]);
    assert d.sym < |lens| && lens[d.sym] == d.len;
  }

  lemma DistanceFound(dist: seq<nat>, s: seq<bool>, p: nat)
    requires p <= |s| && MatchDistance(dist, s, p).Some?
    ensures var d := Decode(dist, s[p..]); d.Found? && p + d.len <= MatchDistance(dist, s, p).value.1
  {
    hide Decode, Oversubscribed;
  }

  lemma TokenFedWithSpare(lit: seq<nat>, dist: seq<nat>, la: seq<nat>, da: seq<nat>, s: seq<bool>, p: nat, over: nat)
    requires |la| == |lit| && |da| == |dist| && Modest(lit, la, over) && Modest(dist, da, over) && p <= |s|
    requires var t := NextToken(lit, dist, s, p); !t.Wrong? && (t.End? || t.q + over <= |s|)
    ensures TokenFed(lit, dist, la, da, s, p)
  {
    hide Decode, Modest, Supplied, MatchLength, MatchDistance;
    var d := Decode(lit, s[p..]);
    SuppliedWithSpare(lit, la, s, p, over);
    if d.sym > END_OF_BLOCK {
      var l := MatchLength(d.sym, s, p + d.len).value.1;
      DistanceFound(dist, s, l);
      SuppliedWithSpare(dist, da, s, l, over);
    }
  }

  lemma {:induction false} FedWithSpare(lit: seq<nat>, dist: seq<nat>, la: seq<nat>, da: seq<nat>, s: seq<bool>, p: nat, h: seq<Byte>, over: nat)
    requires |la| == |lit| && |da| == |dist| && Modest(lit, la, over) && Modest(dist, da, over)
    requires var o := Codes(lit, dist, s, p, h); o.Good? && o.p + over - 1 <= |s|
    ensures Fed(lit, dist, la, da, s, p) == Some(Codes(lit, dist, s, p, h).p)
    decreases |s| - p
  {
    hide NextToken, Modest, TokenFed, Copy;
    match NextToken(lit, dist, s, p)
    case Literal(b, q) =>
      FedWithSpare(lit, dist, la, da, s, q, h + [b], over);
      TokenFedWithSpare(lit, dist, la, da, s, p, over);
    case Match(n, d, q) =>
      FedWithSpare(lit, dist, la, da, s, q, Copy(h, n, d), over);
      TokenFedWithSpare(lit, dist, la, da, s, p, over);
    case _ =>
      TokenFedWithSpare(lit, dist, la, da, s, p, over);
  }

  lemma {:induction false} LengthsWithSpare(cl: seq<nat>, ca: seq<nat>, s: seq<bool>, p: nat, n: nat, ll: seq<nat>)
    requires |ca| == |cl| && Modest(cl, ca, OVERHANG) && p <= |s|
    requires var l := Lengths(cl, s, p, n, ll); l.Some? && l.value.1 + OVERHANG <= |s|
    ensures LengthsFed(cl, ca, s, p, n, ll)
    decreases |s| - p
  {
    hide DecodeFrom, Msb, Code, Lsb;
    if |ll| < n {
      var d := Decode(cl, s[p..]);
      assert d.sym < |cl| && cl[d.sym] == d.len;
      if d.sym < 16 {
        LengthsWithSpare(cl, ca, s, p + d.len, n, ll + [d.sym]);
      } else {
        var bits := if d.sym == 16 then 2 else if d.sym == 17 then 3 else 7;
        var x := Number(s, p + d.len, bits).value;
        LengthsWithSpare(cl, ca, s, p + d.len + bits, n,
          ll + Repeat((if d.sym == 18 then 11 else 3) + x, if d.sym == 16 && ll != [] then ll[|ll| - 1] else 0));
      }
    }
  }

  lemma HeaderWithSpare(s: seq<bool>, p: nat)
    requires var c := Codings(s, p); c.Some? && c.value.p + OVERHANG <= |s|
    ensures HeaderFed(s, p)
  {
    hide Lsb, CodeLengthCode, Lengths, LengthsFed, Acceptable, AsksOf;
    var hlit, hdist, nb := Number(s, p, 5).value, Number(s, p + 5, 5).value, 4 + Number(s, p + 10, 4).value;
    var cl := CodeLengthCode(s, p + 14, nb);
    AsksModest(cl, LENGTH_LIMIT);
    LengthsWithSpare(cl, AsksOf(cl, LENGTH_LIMIT), s, p + 14 + 3 * nb, 258 + hlit + hdist, []);
  }

  lemma BlockWithSpare(kind: nat, s: seq<bool>, p: nat, h: seq<Byte>)
    requires var o := Block(kind, s, p, h); o.Good? && o.p + OVERHANG - 1 <= |s|
    ensures BlockFed(kind, s, p) == Some(Block(kind, s, p, h).p)
  {
    hide Codes, Codings, HeaderFed, Fed, FixedLiterals, FixedDistances, AsksOf, StoredBytes, Number;
    if kind == 1 {
      AsksModest(FixedLiterals(), FIXED_LITERAL_LIMIT);
      AsksModest(FixedDistances(), FIXED_DISTANCE_LIMIT);
      FedWithSpare(FixedLiterals(), FixedDistances(), AsksOf(FixedLiterals(), FIXED_LITERAL_LIMIT),
        AsksOf(FixedDistances(), FIXED_DISTANCE_LIMIT), s, p, h, OVERHANG);
    } else if kind == 2 {
      var c := Codings(s, p).value;
      HeaderWithSpare(s, p);
      AsksModest(c.lit, LITERAL_LIMIT);
      AsksModest(c.dist, DISTANCE_LIMIT);
      FedWithSpare(c.lit, c.dist, AsksOf(c.lit, LITERAL_LIMIT), AsksOf(c.dist, DISTANCE_LIMIT), s, c.p, h, OVERHANG);
    }
  }

  /** Seven bits after the last block, and so always one more byte, are enough
      for every look-up. */
  lemma {:induction false} StreamWithSpare(s: seq<bool>, p: nat, h: seq<Byte>)
    requires var o := Inflated(s, p, h); o.Good? && o.p + OVERHANG - 1 <= |s|
    ensures StreamFed(s, p) == Some(Inflated(s, p, h).p)
    decreases |s| - p
  {
    hide Block, BlockFed, Lsb;
    var kind := Lsb(s[p + 1..p + 3]);
    var b := Block(kind, s, p + 3, h);
    if !s[p] {
      StreamWithSpare(s, b.p, b.out);
    }
    BlockWithSpare(kind, s, p + 3, h);
  }
}
