/** Exactly which pairs of code sets are decoded whatever follows the block. */
module Frugality {
  import opened Common
  import opened Bits
  import opened Canonical
  import opened HuftPrepare
  import opened HuftTables
  import opened Deflate
  import opened LookAhead

  // ---------------------------------------------------------------- writing codes

  /** The `n`-bit string that stands for `x`, first bit most significant. */
  function MsbBitsOf(x: nat, n: nat): (s: seq<bool>)
    ensures |s| == n
  {
    if n == 0 then [] else MsbBitsOf(x / 2, n - 1) + [x % 2 == 1]
  }

  lemma {:induction false} MsbOfBits(x: nat, n: nat)
    requires x < Pow2(n)
    ensures Msb(MsbBitsOf(x, n)) == x
  {
    if n > 0 {
      MsbOfBits(x / 2, n - 1);
      assert MsbBitsOf(x, n)[..n - 1] == MsbBitsOf(x / 2, n - 1);
    }
  }

  /** A set of lengths whose codes fit. */
  ghost predicate Codable(lens: seq<nat>) {
    (forall i :: 0 <= i < |lens| ==> lens[i] <= BMAX) && Kraft(lens, BMAX) <= Pow2(BMAX)
  }

  ghost predicate Coded(lens: seq<nat>, sym: nat) {
    sym < |lens| && lens[sym] > 0
  }

  ghost function CodeBits(lens: seq<nat>, sym: nat): (s: seq<bool>)
    requires Codable(lens) && Coded(lens, sym)
    ensures CodeOf(lens, sym, s) && |s| == lens[sym]
  {
    CodeFits(lens, sym);
    MsbOfBits(Code(lens, sym), lens[sym]);
    MsbBitsOf(Code(lens, sym), lens[sym])
  }

  lemma CodeFits(lens: seq<nat>, sym: nat)
    requires Codable(lens) && Coded(lens, sym)
    ensures Code(lens, sym) < Pow2(lens[sym])
  {
    hide Pow2, Kraft, Base, Start, CountLen;
    var c, k, r, u := CountTable(lens), lens[sym], CountLen(lens[..sym], lens[sym]), Pow2(BMAX - lens[sym]);
    assert k <= BMAX;
    CountLenPrefix(lens, sym, k);
    KraftIsBase(lens, c, BMAX);
    BaseStep(c, k, BMAX);
    BaseMonotone(c, k + 1, BMAX + 1, BMAX);
    FirstCodeIsBase(lens, c, k, BMAX);
    Pow2Add(k, BMAX - k);
    MulLe(r + 1, c[k], u);
    Distribute(FirstCode(lens, k), r + 1, u);
    if Code(lens, sym) >= Pow2(k) {
      MulLe(Pow2(k) + 1, Code(lens, sym) + 1, u);
      Distribute(Pow2(k), 1, u);
    }
  }

  /** A code at the front of the bits is what the reference decoder finds. */
  lemma DecodeOfCode(lens: seq<nat>, s: seq<bool>, sym: nat)
    requires (forall i :: 0 <= i < |lens| ==> lens[i] <= BMAX) && Coded(lens, sym) && lens[sym] <= |s|
    requires CodeOf(lens, sym, s[..lens[sym]])
    ensures Decode(lens, s) == Found(sym, lens[sym])
  {
    hide Code, CountLen;
    var k := lens[sym];
    assert k <= BMAX;
    forall len: nat, t: nat | 1 <= len < k ensures !CodeOf(lens, t, s[..len]) {
      NoCodeInCode(lens, s, sym, len, t);
    }
    DecodeSkips(lens, s, 1, k);
    var d := DecodeFrom(lens, s, k);
    CodeInjective(lens, sym, d.sym, s[..k]);
  }

  lemma NoCodeInCode(lens: seq<nat>, s: seq<bool>, sym: nat, len: nat, t: nat)
    requires (forall i :: 0 <= i < |lens| ==> lens[i] <= BMAX) && Coded(lens, sym) && 1 <= len < lens[sym] <= |s|
    requires CodeOf(lens, sym, s[..lens[sym]])
    ensures !CodeOf(lens, t, s[..len])
  {
    hide Code, CountLen, Val, Pow2, Start;
    if CodeOf(lens, t, s[..len]) {
      var c, k := CountTable(lens), lens[sym];
      assert k <= BMAX;
      CodeIsStart(lens, c, sym, s[..k], BMAX);
      CodeIsStart(lens, c, t, s[..len], BMAX);
      CountLenPrefix(lens, t, len);
      StartOrder(c, len, CountLen(lens[..t], len), k, CountLen(lens[..sym], k), BMAX);
      assert s[..k][..len] == s[..len];
      ValPrefix(s[..k], len, BMAX);
    }
  }

  lemma DecodeOfBits(lens: seq<nat>, s: seq<bool>, p: nat, sym: nat)
    requires Codable(lens) && Coded(lens, sym) && p + lens[sym] <= |s| && s[p..p + lens[sym]] == CodeBits(lens, sym)
    ensures Decode(lens, s[p..]) == Found(sym, lens[sym])
  {
    hide Code, CodeBits;
    assert s[p..][..lens[sym]] == s[p..p + lens[sym]];
    DecodeOfCode(lens, s[p..], sym);
  }

  // ---------------------------------------------------------------- the exact condition

  ghost predicate Writable(c: Codebook) {
    c.Valid() && Codable(c.lit) && Codable(c.dist) && Coded(c.lit, END_OF_BLOCK)
  }

  predicate IsLength(sym: nat) { END_OF_BLOCK < sym <= LAST_LENGTH }

  function LengthBits(sym: nat): nat
    requires IsLength(sym)
  {
    LENGTH_EXTRA[sym - 257]
  }

  /** A literal asks for no more bits than itself and end-of-block have. */
  ghost predicate LiteralFrugal(c: Codebook, sym: nat)
    requires Writable(c) && sym < 256 && Coded(c.lit, sym)
  {
    c.la[sym] <= c.lit[sym] + c.lit[END_OF_BLOCK]
  }

  /** Nor do the two look-ups of a match. */
  ghost predicate MatchFrugal(c: Codebook, sym: nat, d: nat)
    requires Writable(c) && IsLength(sym) && Coded(c.lit, sym) && d <= LAST_DISTANCE && Coded(c.dist, d)
  {
    var rest := c.dist[d] + DISTANCE_EXTRA[d] + c.lit[END_OF_BLOCK];
    c.la[sym] <= c.lit[sym] + LengthBits(sym) + rest && c.da[d] <= rest
  }

  ghost predicate Frugal(c: Codebook)
    requires Writable(c)
  {
    && c.la[END_OF_BLOCK] <= c.lit[END_OF_BLOCK]
    && (forall sym: nat :: sym < 256 && Coded(c.lit, sym) ==> LiteralFrugal(c, sym))
    && (forall sym: nat, d: nat :: IsLength(sym) && Coded(c.lit, sym) && d <= LAST_DISTANCE && Coded(c.dist, d) ==> MatchFrugal(c, sym, d))
  }

  /** A valid block at bit `p`, after the history `h`. */
  ghost predicate ValidBlock(c: Codebook, s: seq<bool>, p: nat, h: seq<Byte>) {
    Codes(c.lit, c.dist, s, p, h).Good?
  }

  lemma {:induction false} EndIsAhead(lit: seq<nat>, dist: seq<nat>, s: seq<bool>, p: nat, h: seq<Byte>)
    requires Codes(lit, dist, s, p, h).Good?
    ensures |lit| > 256 && p + lit[256] <= Codes(lit, dist, s, p, h).p
    decreases |s| - p
  {
    hide DecodeFrom, Copy, Code;
    match NextToken(lit, dist, s, p)
    case Literal(b, q) => EndIsAhead(lit, dist, s, q, h + [b]);
    case Match(n, d, q) => EndIsAhead(lit, dist, s, q, Copy(h, n, d));
    case _ =>
  }

  lemma FrugalToken(c: Codebook, s: seq<bool>, p: nat)
    requires Writable(c) && Frugal(c) && p <= |s|
    requires var t := c.Next(s, p); !t.Wrong? && (t.End? || t.q + c.lit[END_OF_BLOCK] <= |s|)
    ensures c.Feeds(s, p)
  {
    hide DecodeFrom, Oversubscribed, Msb, Code, Codable;
    var a := Decode(c.lit, s[p..]);
    assert Coded(c.lit, a.sym) && c.lit[a.sym] == a.len;
    if a.sym > END_OF_BLOCK {
      var l := MatchLength(a.sym, s, p + a.len).value.1;
      var b := Decode(c.dist, s[l..]);
      assert Coded(c.dist, b.sym) && c.dist[b.sym] == b.len;
      assert MatchFrugal(c, a.sym, b.sym);
    } else if a.sym < 256 {
      assert LiteralFrugal(c, a.sym);
    }
  }

  lemma {:induction false} FrugalFeeds(c: Codebook, s: seq<bool>, p: nat, h: seq<Byte>)
    requires Writable(c) && Frugal(c) && ValidBlock(c, s, p, h)
    ensures c.BlockEnd(s, p).Some?
    decreases |s| - p
  {
    hide NextToken, Frugal, TokenFed, Copy, Codable;
    match c.Next(s, p)
    case Literal(b, q) =>
      EndIsAhead(c.lit, c.dist, s, q, h + [b]);
      FrugalFeeds(c, s, q, h + [b]);
      FrugalToken(c, s, p);
    case Match(n, d, q) =>
      EndIsAhead(c.lit, c.dist, s, q, Copy(h, n, d));
      FrugalFeeds(c, s, q, Copy(h, n, d));
      FrugalToken(c, s, p);
    case _ =>
      FrugalToken(c, s, p);
  }

  // ---------------------------------------------------------------- blocks that need it

  lemma EndAt(c: Codebook, s: seq<bool>, p: nat)
    requires Writable(c) && p + c.lit[END_OF_BLOCK] <= |s|
    requires s[p..p + c.lit[END_OF_BLOCK]] == CodeBits(c.lit, END_OF_BLOCK)
    ensures c.Next(s, p) == End(p + c.lit[END_OF_BLOCK])
    ensures c.Feeds(s, p) <==> p + c.la[END_OF_BLOCK] <= |s|
    ensures forall h :: Codes(c.lit, c.dist, s, p, h) == Good(h, p + c.lit[END_OF_BLOCK])
  {
    hide Decode, CodeBits, Codable, Oversubscribed;
    DecodeOfBits(c.lit, s, p, END_OF_BLOCK);
  }

  lemma LiteralAt(c: Codebook, s: seq<bool>, p: nat, sym: nat)
    requires Writable(c) && sym < 256 && Coded(c.lit, sym) && p + c.lit[sym] <= |s|
    requires s[p..p + c.lit[sym]] == CodeBits(c.lit, sym)
    ensures c.Next(s, p) == Literal(sym, p + c.lit[sym])
    ensures c.Feeds(s, p) <==> p + c.la[sym] <= |s|
  {
    hide Decode, CodeBits, Codable, Oversubscribed;
    DecodeOfBits(c.lit, s, p, sym);
  }

  lemma LengthAt(s: seq<bool>, p: nat, sym: nat)
    requires IsLength(sym) && p + LengthBits(sym) <= |s|
    ensures MatchLength(sym, s, p).Some? && MatchLength(sym, s, p).value.1 == p + LengthBits(sym)
  {
    hide Lsb;
  }

  lemma DistanceAt(dist: seq<nat>, s: seq<bool>, p: nat, d: nat)
    requires Codable(dist) && Coded(dist, d) && d <= LAST_DISTANCE && p + dist[d] + DISTANCE_EXTRA[d] <= |s|
    requires s[p..p + dist[d]] == CodeBits(dist, d)
    ensures Decode(dist, s[p..]) == Found(d, dist[d])
    ensures var m := MatchDistance(dist, s, p);
            m.Some? && m.value.1 == p + dist[d] + DISTANCE_EXTRA[d]
            && DISTANCE_BASE[d] <= m.value.0 < DISTANCE_BASE[d] + Pow2(DISTANCE_EXTRA[d])
  {
    hide Decode, CodeBits, Pow2, Lsb, Kraft;
    DecodeOfBits(dist, s, p, d);
    var q := p + dist[d];
    LsbBound(s[q..q + DISTANCE_EXTRA[d]]);
  }

  lemma MatchAt(c: Codebook, s: seq<bool>, p: nat, sym: nat, d: nat)
    requires Writable(c) && IsLength(sym) && Coded(c.lit, sym) && d <= LAST_DISTANCE && Coded(c.dist, d)
    requires var l := p + c.lit[sym] + LengthBits(sym);
             && l + c.dist[d] + DISTANCE_EXTRA[d] <= |s|
             && s[p..p + c.lit[sym]] == CodeBits(c.lit, sym) && s[l..l + c.dist[d]] == CodeBits(c.dist, d)
    ensures var l := p + c.lit[sym] + LengthBits(sym);
            && (c.Feeds(s, p) <==> p + c.la[sym] <= |s| && l + c.da[d] <= |s|)
            && (var t := c.Next(s, p);
                && t.Match? && t.q == l + c.dist[d] + DISTANCE_EXTRA[d]
                && DISTANCE_BASE[d] <= t.d < DISTANCE_BASE[d] + Pow2(DISTANCE_EXTRA[d]))
  {
    hide Decode, CodeBits, Pow2, Codable, MatchLength, MatchDistance;
    var l := p + c.lit[sym] + LengthBits(sym);
    DecodeOfBits(c.lit, s, p, sym);
    LengthAt(s, p + c.lit[sym], sym);
    DistanceAt(c.dist, s, l, d);
  }

  ghost function LiteralBlock(c: Codebook, sym: nat): seq<bool>
    requires Writable(c) && Coded(c.lit, sym)
  {
    CodeBits(c.lit, sym) + CodeBits(c.lit, END_OF_BLOCK)
  }

  lemma NeedsEnd(c: Codebook)
    requires Writable(c)
    ensures var s := CodeBits(c.lit, END_OF_BLOCK);
            ValidBlock(c, s, 0, []) && (c.BlockEnd(s, 0).Some? ==> c.la[END_OF_BLOCK] <= c.lit[END_OF_BLOCK])
  {
    hide CodeBits, Codable, NextToken, TokenFed;
    EndAt(c, CodeBits(c.lit, END_OF_BLOCK), 0);
  }

  lemma NeedsLiteral(c: Codebook, sym: nat)
    requires Writable(c) && sym < 256 && Coded(c.lit, sym)
    ensures var s := LiteralBlock(c, sym);
            ValidBlock(c, s, 0, []) && (c.BlockEnd(s, 0).Some? ==> LiteralFrugal(c, sym))
  {
    hide CodeBits, Codable, NextToken, TokenFed;
    var s := LiteralBlock(c, sym);
    assert s[0..c.lit[sym]] == CodeBits(c.lit, sym);
    assert s[c.lit[sym]..c.lit[sym] + c.lit[END_OF_BLOCK]] == CodeBits(c.lit, END_OF_BLOCK);
    LiteralAt(c, s, 0, sym);
    EndAt(c, s, c.lit[sym]);
    assert Codes(c.lit, c.dist, s, 0, []) == Codes(c.lit, c.dist, s, c.lit[sym], [] + [sym]);
  }

  function Zeros(n: nat): (s: seq<bool>)
    ensures |s| == n
  {
    seq(n, _ => false)
  }

  ghost function MatchBlock(c: Codebook, sym: nat, d: nat): seq<bool>
    requires Writable(c) && IsLength(sym) && Coded(c.lit, sym) && d <= LAST_DISTANCE && Coded(c.dist, d)
  {
    CodeBits(c.lit, sym) + Zeros(LengthBits(sym)) + CodeBits(c.dist, d) + Zeros(DISTANCE_EXTRA[d]) + CodeBits(c.lit, END_OF_BLOCK)
  }

  lemma MatchParts(c: Codebook, sym: nat, d: nat)
    requires Writable(c) && IsLength(sym) && Coded(c.lit, sym) && d <= LAST_DISTANCE && Coded(c.dist, d)
    ensures var s, l := MatchBlock(c, sym, d), c.lit[sym] + LengthBits(sym);
            var q := l + c.dist[d] + DISTANCE_EXTRA[d];
            && |s| == q + c.lit[END_OF_BLOCK]
            && s[0..c.lit[sym]] == CodeBits(c.lit, sym) && s[l..l + c.dist[d]] == CodeBits(c.dist, d)
            && s[q..q + c.lit[END_OF_BLOCK]] == CodeBits(c.lit, END_OF_BLOCK)
  {
    hide CodeBits, Codable;
  }

  lemma NeedsMatch(c: Codebook, sym: nat, d: nat, h: seq<Byte>)
    requires Writable(c) && IsLength(sym) && Coded(c.lit, sym) && d <= LAST_DISTANCE && Coded(c.dist, d)
    requires |h| >= DISTANCE_BASE[d] + Pow2(DISTANCE_EXTRA[d])
    ensures var s := MatchBlock(c, sym, d);
            ValidBlock(c, s, 0, h) && (c.BlockEnd(s, 0).Some? ==> MatchFrugal(c, sym, d))
  {
    hide CodeBits, Codable, NextToken, TokenFed, Pow2, Copy, MatchBlock;
    var s := MatchBlock(c, sym, d);
    var l := c.lit[sym] + LengthBits(sym);
    var q := l + c.dist[d] + DISTANCE_EXTRA[d];
    MatchParts(c, sym, d);
    MatchAt(c, s, 0, sym, d);
    EndAt(c, s, q);
    var t := c.Next(s, 0);
    assert 1 <= DISTANCE_BASE[d];
    assert Codes(c.lit, c.dist, s, 0, h) == Codes(c.lit, c.dist, s, q, Copy(h, t.n, t.d));
  }

  /** Every valid block with these codes is fed, whatever follows it, if and only
      if no look-up asks for more bits than can still come. */
  lemma FrugalExactly(c: Codebook)
    requires Writable(c)
    ensures Frugal(c) <==> forall s, p, h :: ValidBlock(c, s, p, h) ==> c.BlockEnd(s, p).Some?
  {
    hide Fed, Codable, ValidBlock, LiteralFrugal, MatchFrugal, LiteralBlock, MatchBlock;
    if Frugal(c) {
      forall s, p: nat, h | ValidBlock(c, s, p, h) ensures c.BlockEnd(s, p).Some? {
        FrugalFeeds(c, s, p, h);
      }
    }
    if forall s, p, h :: ValidBlock(c, s, p, h) ==> c.BlockEnd(s, p).Some? {
      NeedsEnd(c);
      forall sym: nat | sym < 256 && Coded(c.lit, sym) ensures LiteralFrugal(c, sym) {
        NeedsLiteral(c, sym);
      }
      forall sym: nat, d: nat | IsLength(sym) && Coded(c.lit, sym) && d <= LAST_DISTANCE && Coded(c.dist, d)
        ensures MatchFrugal(c, sym, d)
      {
        NeedsMatch(c, sym, d, seq(DISTANCE_BASE[d] + Pow2(DISTANCE_EXTRA[d]), _ => 0));
      }
    }
  }
}
