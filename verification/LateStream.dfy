/** A valid stream that inflate.c gives up on: a look-up asks for bits beyond
    the end of the input, though the code it finds and the rest are there. */
module LateStream {
  import opened Common
  import opened Bits
  import opened Canonical
  import opened HuftPrepare
  import opened HuftSizes
  import opened HuftTables
  import opened Deflate
  import opened LookAhead
  import opened FixedBlocks
  import opened Frugality
  import Inflate
  import SlidingWindow

  // ---------------------------------------------------------------- sending code lengths

  /** One element of the code lengths: a symbol and its extra bits. */
  datatype Sent = Sent(sym: nat, x: nat)

  function ExtraOf(sym: nat): nat {
    if sym < 16 then 0 else if sym == 16 then 2 else if sym == 17 then 3 else 7
  }

  ghost predicate Sendable(cl: seq<nat>, t: Sent) {
    t.sym <= 18 && Coded(cl, t.sym) && t.x < Pow2(ExtraOf(t.sym))
  }

  ghost predicate AllSendable(cl: seq<nat>, ts: seq<Sent>) { forall i :: 0 <= i < |ts| ==> Sendable(cl, ts[i]) }

  function Expanded(ll: seq<nat>, t: Sent): (r: seq<nat>)
    ensures |r| > |ll|
  {
    if t.sym < 16 then ll + [t.sym]
    else ll + Repeat((if t.sym == 18 then 11 else 3) + t.x, if t.sym == 16 && ll != [] then ll[|ll| - 1] else 0)
  }

  function Expand(ll: seq<nat>, ts: seq<Sent>): (r: seq<nat>)
    ensures |r| >= |ll|
    decreases |ts|
  {
    if ts == [] then ll else Expand(Expanded(ll, ts[0]), ts[1..])
  }

  function SentBits(cl: seq<nat>, ts: seq<Sent>): nat {
    if ts == [] then 0 else (if ts[0].sym < |cl| then cl[ts[0].sym] else 0) + ExtraOf(ts[0].sym) + SentBits(cl, ts[1..])
  }

  ghost function Encode(cl: seq<nat>, ts: seq<Sent>): (s: seq<bool>)
    requires Codable(cl) && AllSendable(cl, ts)
    ensures |s| == SentBits(cl, ts)
  {
    if ts == [] then []
    else
      assert Sendable(cl, ts[0]);
      CodeBits(cl, ts[0].sym) + BitsOf(ts[0].x, ExtraOf(ts[0].sym)) + Encode(cl, ts[1..])
  }

  lemma Parts(s: seq<bool>, p: nat, a: seq<bool>, b: seq<bool>, c: seq<bool>)
    requires p + |a| + |b| + |c| <= |s| && s[p..p + |a| + |b| + |c|] == a + b + c
    ensures s[p..p + |a|] == a && s[p + |a|..p + |a| + |b|] == b && s[p + |a| + |b|..p + |a| + |b| + |c|] == c
  {
    var t := s[p..p + |a| + |b| + |c|];
    assert forall k :: 0 <= k < |a| ==> t[k] == a[k];
    assert forall k :: 0 <= k < |b| ==> t[|a| + k] == b[k];
    assert forall k :: 0 <= k < |c| ==> t[|a| + |b| + k] == c[k];
  }

  /** The first element and the rest. */
  lemma EncodeStep(cl: seq<nat>, ts: seq<Sent>)
    requires Codable(cl) && AllSendable(cl, ts) && ts != []
    ensures Sendable(cl, ts[0]) && AllSendable(cl, ts[1..])
    ensures SentBits(cl, ts) == cl[ts[0].sym] + ExtraOf(ts[0].sym) + SentBits(cl, ts[1..])
    ensures Encode(cl, ts) == CodeBits(cl, ts[0].sym) + BitsOf(ts[0].x, ExtraOf(ts[0].sym)) + Encode(cl, ts[1..])
  {
    assert Sendable(cl, ts[0]);
  }

  /** One element that was sent is one step of the reference decoder. */
  lemma SentReadBack(cl: seq<nat>, t: Sent, s: seq<bool>, p: nat, n: nat, ll: seq<nat>)
    requires Codable(cl) && Sendable(cl, t) && |ll| < n
    requires p + cl[t.sym] + ExtraOf(t.sym) <= |s| && s[p..p + cl[t.sym]] == CodeBits(cl, t.sym)
    requires s[p + cl[t.sym]..p + cl[t.sym] + ExtraOf(t.sym)] == BitsOf(t.x, ExtraOf(t.sym))
    ensures Lengths(cl, s, p, n, ll) == Lengths(cl, s, p + cl[t.sym] + ExtraOf(t.sym), n, Expanded(ll, t))
  {
    hide Decode, CodeBits, Codable, Lsb, BitsOf, Repeat;
    DecodeOfBits(cl, s, p, t.sym);
    LsbBitsOf(t.x, ExtraOf(t.sym));
  }

  /** The reference decoder reads back the lengths that were sent. */
  lemma {:induction false} LengthsReadBack(cl: seq<nat>, ts: seq<Sent>, s: seq<bool>, p: nat, ll: seq<nat>)
    requires Codable(cl) && AllSendable(cl, ts) && p + SentBits(cl, ts) <= |s|
    requires s[p..p + SentBits(cl, ts)] == Encode(cl, ts)
    ensures var r := Expand(ll, ts);
            Lengths(cl, s, p, |r|, ll) == Some((r, p + SentBits(cl, ts)))
    decreases |ts|
  {
    hide Decode, CodeBits, Codable, BitsOf, Expanded, ExtraOf, Lengths, Encode, AllSendable, Sendable;
    if ts == [] {
      LengthsDone(cl, s, p, ll);
    } else {
      hide SentBits;
      EncodeStep(cl, ts);
      Parts(s, p, CodeBits(cl, ts[0].sym), BitsOf(ts[0].x, ExtraOf(ts[0].sym)), Encode(cl, ts[1..]));
      SentReadBack(cl, ts[0], s, p, |Expand(ll, ts)|, ll);
      LengthsReadBack(cl, ts[1..], s, p + cl[ts[0].sym] + ExtraOf(ts[0].sym), Expanded(ll, ts[0]));
    }
  }

  lemma LengthsDone(cl: seq<nat>, s: seq<bool>, p: nat, ll: seq<nat>)
    ensures Lengths(cl, s, p, |ll|, ll) == Some((ll, p))
  {
  }

  // ---------------------------------------------------------------- the code set

  /** One code of each length, two of the greatest; end-of-block has the shortest. */
  function Lit(): seq<nat> { Ladder(10) + [10] + Repeat(246, 0) + [1] }

  function Dist(): seq<nat> { [0] }

  /** The lengths from 2 to `n`. */
  function Ladder(n: nat): (r: seq<nat>)
    ensures |r| == if n < 2 then 0 else n - 1
    ensures forall i :: 0 <= i < |r| ==> r[i] == i + 2
  {
    if n < 2 then [] else Ladder(n - 1) + [n]
  }

  lemma {:induction false} KraftZeros(a: seq<nat>, n: nat, g: nat)
    requires forall i :: 0 <= i < |a| ==> a[i] <= g
    ensures forall i :: 0 <= i < |a + Repeat(n, 0)| ==> (a + Repeat(n, 0))[i] <= g
    ensures Kraft(a + Repeat(n, 0), g) == Kraft(a, g)
  {
    if n == 0 {
      assert a + Repeat(n, 0) == a;
    } else {
      KraftZeros(a, n - 1, g);
      var b := a + Repeat(n - 1, 0);
      assert a + Repeat(n, 0) == b + [0];
      assert (b + [0])[..|b|] == b;
    }
  }

  lemma KraftOne(a: seq<nat>, x: nat, g: nat)
    requires (forall i :: 0 <= i < |a| ==> a[i] <= g) && 1 <= x <= g
    ensures Kraft(a + [x], g) == Kraft(a, g) + Pow2(g - x)
  {
    assert (a + [x])[..|a|] == a;
  }

  lemma Powers()
    ensures Pow2(0) == 1 && Pow2(1) == 2 && Pow2(2) == 4 && Pow2(3) == 8 && Pow2(4) == 16 && Pow2(5) == 32 && Pow2(6) == 64
    ensures Pow2(7) == 128 && Pow2(8) == 256 && Pow2(9) == 512 && Pow2(10) == 1024
  {
    assert Pow2(5) == 32;
  }

  lemma {:induction false} LadderKraft(n: nat)
    requires 1 <= n <= 10
    ensures Kraft(Ladder(n), 10) == Pow2(9) - Pow2(10 - n)
  {
    hide Kraft, Pow2;
    if n == 1 {
      NoKraft(10);
    } else {
      LadderKraft(n - 1);
      KraftOne(Ladder(n - 1), n, 10);
      Pow2Step(10 - n);
    }
  }

  lemma NoKraft(g: nat)
    ensures Kraft([], g) == 0
  {
  }

  lemma LitKraft()
    ensures |Lit()| == 257 && Lit()[0] == 2 && Lit()[8] == 10 && Lit()[256] == 1 && forall i :: 0 <= i < |Lit()| ==> Lit()[i] <= 10
    ensures Kraft(Lit(), 10) == Pow2(10)
  {
    hide Kraft, Pow2;
    var a := Ladder(10) + [10];
    Powers();
    LadderKraft(10);
    KraftOne(Ladder(10), 10, 10);
    KraftZeros(a, 246, 10);
    KraftOne(a + Repeat(246, 0), 1, 10);
  }

  lemma CountOne(a: seq<nat>, x: nat, len: nat)
    ensures CountLen(a + [x], len) == CountLen(a, len) + if x == len then 1 else 0
  {
    assert (a + [x])[..|a|] == a;
  }

  lemma {:induction false} LadderCount(n: nat, len: nat)
    requires n >= 1
    ensures CountLen(Ladder(n), len) == if 2 <= len <= n then 1 else 0
  {
    hide CountLen;
    if n == 1 {
      CountNone(len);
    } else {
      LadderCount(n - 1, len);
      CountOne(Ladder(n - 1), n, len);
    }
  }

  lemma LitCount(len: nat)
    requires len > 0
    ensures CountLen(Lit(), len) == if 1 <= len <= 9 then 1 else if len == 10 then 2 else 0
  {
    hide CountLen;
    var a := Ladder(10) + [10];
    LadderCount(10, len);
    CountOne(Ladder(10), 10, len);
    CountRepeat(a, 246, 0, len);
    CountOne(a + Repeat(246, 0), 1, len);
  }

  ghost function LitSizing(): Sizing { Sizing(CountTable(Lit()), 10, 1, 9) }

  lemma LitSized()
    ensures var p := LitSizing();
            Sized(Lit(), p) && Clamped(p, LITERAL_LIMIT) && OneOfEach(p) && p.g == 10
  {
    hide CountLen, Base, Pow2, Kraft;
    var p := LitSizing();
    LitKraft();
    KraftIsBase(Lit(), p.c, 10);
    LitCount(10);
    forall len | 1 <= len <= 10 ensures p.c[len] == if len == 10 then 2 else 1 {
      LitCount(len);
    }
    assert SizingOk(p);
    assert Sized(Lit(), p);
    assert p.c[1] > 0 && Clamped(p, LITERAL_LIMIT);
    assert OneOfEach(p);
  }

  /** One code of every length, two of the greatest. */
  ghost predicate OneOfEach(p: Sizing) {
    SizingOk(p) && p.g >= 3 && p.c[p.g] == 2 && forall j :: 1 <= j < p.g ==> p.c[j] == 1
  }

  lemma {:induction false} OneOfEachTaken(p: Sizing, k: nat, n: nat)
    requires OneOfEach(p) && 1 <= k < p.g && k <= n <= p.g
    ensures TakenUp(p, k, 0, n) == Pow2(n - k + 1) - if n < p.g then 1 else 0
    decreases n
  {
    hide TakenUp, Base;
    TakenFirst(p, k, 0);
    if n > k {
      OneOfEachTaken(p, k, n - 1);
      TakenNext(p, k, 0, n);
    }
  }

  /** The table opened for the code of `k` bits after the first `k - 1` has the
      size of the limit, if so many bits are left, unless end-of-block cuts it. */
  lemma LimitReached(p: Sizing, k: nat)
    requires OneOfEach(p) && 1 <= k < p.g && 2 <= p.m
    ensures SizeChosen(p, k, 0, k - 1, CutAt(p.el, k - 1, Limit(p, k - 1)))
  {
    hide TakenUp, Base, Pow2;
    var w, z := k - 1, Limit(p, k - 1);
    forall i | 1 <= i <= p.g - w ensures Fills(p, k, 0, w, i) <==> i == p.g - w {
      OneOfEachTaken(p, k, w + i);
    }
    assert SmallestFilled(p, k, 0, w, z, z);
  }

  /** The look-up of the two-bit code asks for ten bits. */
  lemma AsksForTen()
    ensures |AsksOf(Lit(), LITERAL_LIMIT)| == 257 && AsksOf(Lit(), LITERAL_LIMIT)[0] == 10
  {
    hide Base, Pow2, Kraft, Sized, Clamped, CountLen, CodeBits, Asked, TableSize, OneOfEach;
    var p := LitSizing();
    LitCodable();
    LitSized();
    var code := CodeBits(Lit(), 0);
    AskIs(Lit(), LITERAL_LIMIT, p, 0, code);
    RootTable(p);
    SecondTable(p, code);
    AskedInTwo(p, code);
  }

  lemma AskedInTwo(p: Sizing, code: seq<bool>)
    requires |code| == 2 && TableSize(p, code[..0]) == 1 && TableSize(p, code[..1]) == 9
    ensures Asked(p, code, 0) == 10
  {
    hide TableSize;
    assert Asked(p, code, 1) == 10;
  }

  lemma LitCodable()
    ensures Codable(Lit()) && |Lit()| == 257 && Coded(Lit(), 0) && Coded(Lit(), 256) && Lit()[0] == 2 && Lit()[256] == 1
  {
    hide Kraft, Pow2;
    LitKraft();
    KraftScale(Lit(), 10, BMAX);
    Pow2Add(10, 6);
  }

  lemma RootTable(p: Sizing)
    requires OneOfEach(p) && p.el == 1 && p.m == 9 && p.g == 10
    ensures TableSize(p, []) == 1
  {
    hide TakenUp, Pow2, Base;
    LimitReached(p, 1);
    assert Base(p.c, 1, 10) == 0 && Val([], 10) == 0 by { NothingBefore(p.c); }
    assert OpensAt(p, [], 1, 0, 1);
    TableSizeIs(p, [], 1);
  }

  lemma NothingBefore(c: seq<nat>)
    requires |c| == BMAX + 1
    ensures Base(c, 1, 10) == 0 && Val([], 10) == 0
  {
  }

  lemma SecondTable(p: Sizing, code: seq<bool>)
    requires OneOfEach(p) && p.el == 1 && p.m == 9 && p.g == 10 && CodeOf(Lit(), 0, code) && |code| == 2 && Sized(Lit(), p)
    ensures TableSize(p, code[..0]) == 1 && TableSize(p, code[..1]) == 9
  {
    hide TakenUp, Pow2, Base, Val, CountLen, Sized;
    RootTable(p);
    assert code[..0] == [];
    LimitReached(p, 2);
    CodeIsStartOfSizing(Lit(), p, 0, code);
    assert Lit()[..0] == [] && CountLen([], 2) == 0 by { CountNone(2); }
    FirstBit(p, code);
    assert OpensAt(p, code[..1], 2, 0, 9);
    TableSizeIs(p, code[..1], 9);
  }

  /** The code starts where the interval of its first bit does. */
  lemma FirstBit(p: Sizing, code: seq<bool>)
    requires SizingOk(p) && p.g == 10 && p.c[1] == 1 && |code| == 2 && Val(code, 10) == Start(p.c, 2, 0, 10)
    ensures Val(code[..1], 10) == Start(p.c, 2, 0, 10)
  {
    hide Val;
    Powers();
    BaseStep(p.c, 1, 10);
    NothingBefore(p.c);
    ValIsMsb(code, 10);
    ValIsMsb(code[..1], 10);
    MsbStep(code);
  }

  // ---------------------------------------------------------------- the stream

  /** Lengths of the code length code, by symbol and in the order of sending. */
  function Cl(): seq<nat> { [3, 3, 4, 4, 4, 4, 4, 4, 4, 4, 3, 0, 0, 0, 0, 0, 0, 0, 3] }

  function ClSent(): seq<nat> { [0, 0, 3, 3, 4, 4, 4, 4, 3, 4, 0, 4, 0, 4, 0, 4, 0, 3] }

  function Elements(): seq<Sent> {
    [Sent(2, 0), Sent(3, 0), Sent(4, 0), Sent(5, 0), Sent(6, 0), Sent(7, 0), Sent(8, 0), Sent(9, 0), Sent(10, 0),
     Sent(10, 0), Sent(18, 127), Sent(18, 97), Sent(1, 0), Sent(0, 0)]
  }

  lemma ClKraft()
    ensures |Cl()| == 19 && (forall i :: 0 <= i < 19 ==> Cl()[i] <= BMAX) && Kraft(Cl(), BMAX) == Pow2(BMAX)
  {
    hide Kraft, Pow2;
    var a := Repeat(2, 3);
    var b := a + Repeat(8, 4);
    var c := b + Repeat(1, 3);
    var d := c + Repeat(7, 0);
    assert [] + a == a && Cl() == d + [3];
    NoKraft(BMAX);
    Inflate.KraftRepeat([], 2, 3);
    Inflate.KraftRepeat(a, 8, 4);
    Inflate.KraftRepeat(b, 1, 3);
    KraftZeros(c, 7, BMAX);
    KraftOne(d, 3, BMAX);
    Inflate.PowersOfTwo(13);
    Inflate.PowersOfTwo(12);
    Inflate.TwoToTheSixteen();
  }

  lemma ClOrder(i: nat)
    requires i < 19
    ensures |ClSent()| == 18 && |BORDER| == 19 && BORDER[i] < 19 && |Cl()| == 19
    ensures Cl()[BORDER[i]] == if i < 18 then ClSent()[i] else 0
    ensures i < 18 ==> ClSent()[i] < 8
  {
  }

  lemma ExpandFrom(ll: seq<nat>, ts: seq<Sent>, k: nat)
    requires k < |ts|
    ensures Expand(ll, ts[k..]) == Expand(Expanded(ll, ts[k]), ts[k + 1..])
  {
    assert ts[k..][1..] == ts[k + 1..];
  }

  predicate IsSent(ts: seq<Sent>) {
    && |ts| == 14 && (forall i :: 0 <= i < 9 ==> ts[i] == Sent(i + 2, 0))
    && ts[9] == Sent(10, 0) && ts[10] == Sent(18, 127) && ts[11] == Sent(18, 97) && ts[12] == Sent(1, 0) && ts[13] == Sent(0, 0)
  }

  lemma {:induction false} SentLadder(ts: seq<Sent>, i: nat)
    requires i <= 9 && IsSent(ts)
    ensures Expand([], ts) == Expand(Ladder(i + 1), ts[i..])
  {
    hide Expand;
    if i == 0 {
      assert ts[0..] == ts;
    } else {
      SentLadder(ts, i - 1);
      ExpandFrom(Ladder(i), ts, i - 1);
      assert Expanded(Ladder(i), ts[i - 1]) == Ladder(i + 1);
    }
  }

  lemma ExpandedSent(ts: seq<Sent>)
    requires IsSent(ts)
    ensures Expand([], ts) == Lit() + Dist()
  {
    hide Expand, Ladder, Repeat;
    SentLadder(ts, 9);
    var a := Ladder(10) + [10];
    ExpandFrom(Ladder(10), ts, 9);
    ExpandFrom(a, ts, 10);
    var b := a + Repeat(138, 0);
    ExpandFrom(b, ts, 11);
    var c := b + Repeat(108, 0);
    assert c == a + Repeat(246, 0) by { ZerosJoined(a); }
    ExpandFrom(c, ts, 12);
    ExpandFrom(c + [1], ts, 13);
    assert ts[14..] == [];
    NothingSent(c + [1] + [0]);
  }

  lemma ZerosJoined(a: seq<nat>)
    ensures a + Repeat(138, 0) + Repeat(108, 0) == a + Repeat(246, 0)
  {
  }

  lemma SentLengths()
    ensures Expand([], Elements()) == Lit() + Dist() && SentBits(Cl(), Elements()) == 64
  {
    hide Expand, SentBits, Lit, Dist, Cl;
    ExpandedSent(Elements());
    SentLength();
  }

  lemma SentLength()
    ensures SentBits(Cl(), Elements()) == 64
  {
    hide SentBits;
    BitsOfLadder(Elements(), 8);
    BitsFrom(Elements(), 8);
    BitsFrom(Elements(), 9);
    BitsFrom(Elements(), 10);
    BitsFrom(Elements(), 11);
    BitsFrom(Elements(), 12);
    BitsFrom(Elements(), 13);
    assert Elements()[14..] == [];
    NoBitsSent(Cl());
  }

  lemma NoBitsSent(cl: seq<nat>)
    ensures SentBits(cl, []) == 0
  {
  }

  lemma BitsFrom(ts: seq<Sent>, k: nat)
    requires k < |ts| && ts[k].sym < 19
    ensures SentBits(Cl(), ts[k..]) == Cl()[ts[k].sym] + ExtraOf(ts[k].sym) + SentBits(Cl(), ts[k + 1..])
  {
    assert ts[k..][1..] == ts[k + 1..];
  }

  lemma {:induction false} BitsOfLadder(ts: seq<Sent>, i: nat)
    requires i <= 8 && IsSent(ts)
    ensures SentBits(Cl(), ts) == 4 * i + SentBits(Cl(), ts[i..])
  {
    hide SentBits;
    if i == 0 {
      assert ts[0..] == ts;
    } else {
      BitsOfLadder(ts, i - 1);
      BitsFrom(ts, i - 1);
    }
  }

  lemma NothingSent(ll: seq<nat>)
    ensures Expand(ll, []) == ll
  {
  }

  lemma SentSendable()
    ensures Codable(Cl()) && AllSendable(Cl(), Elements())
  {
    hide Kraft;
    ClKraft();
    Powers();
  }

  /** The lengths of the code length code as they are sent, three bits each. */
  function ClBits(n: nat): (s: seq<bool>)
    requires n <= 18
    ensures |s| == 3 * n
  {
    if n == 0 then [] else ClBits(n - 1) + BitsOf(ClSent()[n - 1], 3)
  }

  lemma {:induction false} ClBitsAt(n: nat, i: nat)
    requires i < n <= 18
    ensures |ClSent()| == 18 && ClBits(n)[3 * i..3 * i + 3] == BitsOf(ClSent()[i], 3)
  {
    hide BitsOf;
    if i < n - 1 {
      ClBitsAt(n - 1, i);
      assert ClBits(n)[3 * i..3 * i + 3] == ClBits(n - 1)[3 * i..3 * i + 3];
    }
  }

  ghost function Book(): (c: Codebook)
    ensures c.Valid()
  {
    Codebook(Lit(), Dist(), AsksOf(Lit(), LITERAL_LIMIT), AsksOf(Dist(), DISTANCE_LIMIT))
  }

  lemma BookWritable()
    ensures Writable(Book())
  {
    hide Kraft, Pow2, AsksOf;
    LitCodable();
    NoKraft(BMAX);
    KraftZeros([], 1, BMAX);
    assert [] + Repeat(1, 0) == Dist();
  }

  /** Final-block bit, block type 2, the three counts, and all lengths. */
  ghost function Header(): (s: seq<bool>)
    ensures |s| == 135
  {
    SentSendable();
    SentLengths();
    [true, false, true] + BitsOf(0, 5) + BitsOf(0, 5) + BitsOf(14, 4) + ClBits(18) + Encode(Cl(), Elements())
  }

  /** A single literal, in the two-bit code, and end-of-block; then six bits. */
  ghost function Late(): (s: seq<bool>)
    ensures |s| == 144
  {
    BookWritable();
    LitCodable();
    Header() + LiteralBlock(Book(), 0) + Zeros(6)
  }

  lemma LateParts()
    ensures Codable(Cl()) && AllSendable(Cl(), Elements()) && Writable(Book()) && Coded(Lit(), 0)
    ensures var s := Late();
            && s[0] && s[1..3] == [false, true]
            && s[3..8] == BitsOf(0, 5) && s[8..13] == BitsOf(0, 5) && s[13..17] == BitsOf(14, 4)
            && s[17..71] == ClBits(18) && s[71..135] == Encode(Cl(), Elements()) && s[135..138] == LiteralBlock(Book(), 0)
  {
    hide Lit, Dist, Cl, ClSent, Elements, Zeros, BitsOf, ClBits, Encode, LiteralBlock, AsksOf, Writable, Codable, AllSendable, Coded;
    SentSendable();
    SentLengths();
    BookWritable();
    LitCodable();
    var h, b := Header(), LiteralBlock(Book(), 0);
    assert |b| == 3 by { BlockLength(); }
    assert h[0] && h[1..3] == [false, true];
    assert h[3..8] == BitsOf(0, 5) && h[8..13] == BitsOf(0, 5) && h[13..17] == BitsOf(14, 4);
    assert h[17..71] == ClBits(18) && h[71..135] == Encode(Cl(), Elements());
    var s := Late();
    assert s == h + b + Zeros(6);
    assert s[..135] == h;
    assert s[0] == h[0] && s[1..3] == h[1..3] && s[3..8] == h[3..8] && s[8..13] == h[8..13] && s[13..17] == h[13..17];
    assert s[17..71] == h[17..71] && s[71..135] == h[71..135];
  }

  lemma BlockLength()
    ensures Writable(Book()) && Coded(Lit(), 0) && |LiteralBlock(Book(), 0)| == 3
  {
    BookWritable();
    LitCodable();
  }

  lemma LateNumbers()
    ensures var s := Late();
            && Lsb(s[1..3]) == 2 && Number(s, 3, 5) == Some(0) && Number(s, 8, 5) == Some(0) && Number(s, 13, 4) == Some(14)
  {
    hide Lit, Dist, Cl, ClSent, Elements, Late, BitsOf, Encode, ClBits, LiteralBlock, CodeBits;
    LateParts();
    Powers();
    LsbBitsOf(0, 5);
    LsbBitsOf(14, 4);
    assert Lsb([false, true]) == 2 by { Two(); }
  }

  lemma Two()
    ensures Lsb([false, true]) == 2
  {
    assert [false, true][1..] == [true];
    assert [true][1..] == [];
  }

  lemma SliceOfSlice(s: seq<bool>, a: nat, b: nat, i: nat, j: nat)
    requires a <= b <= |s| && i <= j <= b - a
    ensures s[a..b][i..j] == s[a + i..a + j]
  {
    var t := s[a..b];
    forall k | 0 <= k < j - i ensures t[i..j][k] == s[a + i..a + j][k] {
      assert t[i..j][k] == t[i + k];
    }
  }

  lemma LateCodeLength(s: seq<bool>, i: nat)
    requires i < 19 && |s| == 144 && s[17..71] == ClBits(18)
    ensures BORDER[i] < 19 && |Cl()| == 19
    ensures Cl()[BORDER[i]] == if i < 18 then Lsb(s[17 + 3 * i..17 + 3 * i + 3]) else 0
  {
    hide BitsOf, Lsb, ClBits;
    ClOrder(i);
    if i < 18 {
      Powers();
      ClBitsAt(18, i);
      LsbBitsOf(ClSent()[i], 3);
      SliceOfSlice(s, 17, 71, 3 * i, 3 * i + 3);
    }
  }

  lemma LateCodeLengths()
    ensures CodeLengthCode(Late(), 17, 18) == Cl()
  {
    hide Lit, Dist, Cl, ClSent, Elements, Late, BitsOf, Encode, LiteralBlock, CodeBits, CodeLengthCode, Lsb, ClBits, Writable, AllSendable, Codable;
    var s := Late();
    LateParts();
    forall i | 0 <= i < 19
      ensures BORDER[i] < 19 && |Cl()| == 19 && Cl()[BORDER[i]] == if i < 18 then Lsb(s[17 + 3 * i..17 + 3 * i + 3]) else 0
    {
      LateCodeLength(s, i);
    }
    assert |Cl()| == 19 by { LateCodeLength(s, 0); }
    Inflate.CodeLengthsInOrder(s, 17, 18, Cl());
  }

  lemma DistLength()
    ensures |Dist()| == 1
  {
  }

  lemma LateCodings()
    ensures Codings(Late(), 3) == Some(Coding(Lit(), Dist(), 135))
  {
    hide Lit, Dist, Cl, ClSent, Elements, AsksOf, Late, BitsOf, Encode, LiteralBlock, CodeBits, CodeLengthCode, Lsb, ClBits, Lengths, Kraft, Number, Expand;
    var s := Late();
    LateParts();
    LateNumbers();
    LateCodeLengths();
    SentLengths();
    LengthsReadBack(Cl(), Elements(), s, 71, []);
    assert Acceptable(Cl()) by { ClKraft(); }
    assert Acceptable(Lit()) by { LitKraft(); KraftScale(Lit(), 10, BMAX); Pow2Add(10, 6); }
    LitCodable();
    assert |Dist()| == 1 by { DistLength(); }
    assert (Lit() + Dist())[..257] == Lit() && (Lit() + Dist())[257..] == Dist() && |Lit() + Dist()| == 258;
  }

  /** The stream is valid, and ends six bits before its last byte does. */
  lemma LateIsValid()
    ensures |Late()| == 144 && Inflated(Late(), 0, []) == Good([0], 138)
  {
    hide Lit, Dist, Cl, ClSent, Elements, Encode, ClBits, Late, BitsOf, LiteralBlock, CodeBits, Lsb, Codings, NextToken, AsksOf, Writable, TokenFed;
    var s, c := Late(), Book();
    LateParts();
    LateNumbers();
    LateCodings();
    LateBlock();
    assert Block(2, s, 3, []) == Codes(Lit(), Dist(), s, 135, []);
  }

  lemma LateBlock()
    ensures Codes(Lit(), Dist(), Late(), 135, []) == Good([0], 138)
    ensures Book().BlockEnd(Late(), 135) == None
  {
    hide Lit, Dist, Cl, ClSent, Elements, Encode, ClBits, Header, Late, BitsOf, CodeBits, NextToken, AsksOf, Codable, TokenFed, Fed;
    var s, c := Late(), Book();
    LateParts();
    LitCodable();
    AsksForTen();
    var b := LiteralBlock(c, 0);
    assert s[135..138] == b && b[..2] == CodeBits(Lit(), 0) && b[2..] == CodeBits(Lit(), 256);
    assert s[135..137] == b[..2] && s[137..138] == b[2..];
    LiteralAt(c, s, 135, 0);
    EndAt(c, s, 137);
    assert Codes(Lit(), Dist(), s, 135, []) == Codes(Lit(), Dist(), s, 137, [] + [0]);
    NotFed(c, s, 135);
  }

  lemma NotFed(c: Codebook, s: seq<bool>, p: nat)
    requires c.Valid() && p <= |s| && !c.Feeds(s, p)
    ensures c.BlockEnd(s, p) == None
  {
  }

  lemma LateIsNotFed()
    ensures StreamFed(Late(), 0) == None
  {
    hide Lit, Dist, Cl, ClSent, Elements, Late, BitsOf, LiteralBlock, CodeBits, Lsb, Codings, AsksOf, Fed, HeaderFed;
    LateNumbers();
    LateCodings();
    LateBlock();
    assert DynamicFed(Late(), 3) == None;
  }

  // ---------------------------------------------------------------- what inflate.c does with it

  /** In any tables huft_build makes for this code set, the look-up of the two-bit
      code runs short on nine bits that hold it, end-of-block and six more. */
  lemma LookUpFails(tables: seq<seq<Huft>>, m: nat, s: seq<bool>)
    requires DecodeLike(tables, m, Lit(), Inflate.LITERALS, AsksOf(Lit(), LITERAL_LIMIT))
    requires Writable(Book()) && Coded(Lit(), 0) && |s| == 9 && s[..3] == LiteralBlock(Book(), 0)
    ensures Decode(Lit(), s) == Found(0, 2) && Decode(Lit(), s[2..]) == Found(256, 1)
    ensures Walk(tables, 0, m, s, 0).Short?
  {
    hide Decode, Walk, AsksOf, CodeBits, Lit, Dist, Codable;
    LitCodable();
    AsksForTen();
    var b := LiteralBlock(Book(), 0);
    assert b[..2] == CodeBits(Lit(), 0) && b[2..] == CodeBits(Lit(), 256);
    assert s[0..2] == b[..2] && s[2..3] == b[2..] && s[0..] == s;
    DecodeOfBits(Lit(), s, 0, 0);
    DecodeOfBits(Lit(), s, 2, 256);
    assert WalksRight(tables, m, Lit(), Inflate.LITERALS, AsksOf(Lit(), LITERAL_LIMIT), s);
  }

  /** Any string of whole bytes can be the input. */
  lemma {:induction false} InputOf(s: seq<bool>) returns (input: seq<Byte>)
    requires |s| % 8 == 0
    ensures Inflate.Stream(input) == s
    decreases |s|
  {
    hide Lsb, BitsOf;
    if s == [] {
      input := [];
    } else {
      LsbBound(s[..8]);
      Powers();
      BitsOfLsb(s[..8]);
      var rest := InputOf(s[8..]);
      input := [Lsb(s[..8])] + rest;
      assert input[1..] == rest && s == s[..8] + s[8..];
    }
  }

  /** The stream is valid, with six bits after its end, and inflate.c reports an
      error: seven bits are needed in general. */
  method GivesUp(input: seq<Byte>, win: SlidingWindow.Window, garbage: seq<nat>) returns (res: Inflate.Result)
    requires Inflate.Stream(input) == Late() && |garbage| == 19
    requires win.Valid() && win.flushed == [] && win.wp == 0 && forall n :: win.sink(n) == 0
    modifies win, win.slide
    ensures Inflated(Inflate.Stream(input), 0, []) == Good([0], 8 * |input| - 6)
    ensures res.Short()
  {
    hide Late, Inflated, StreamFed, Inflate.Stream, AsksOf;
    LateIsValid();
    LateIsNotFed();
    var reader := new Inflate.Reader(input);
    var inflater := new Inflate.Inflater(reader, win, garbage);
    res := inflater.Xinflate();
  }
}
