/** Blocks with the fixed codes, and stored blocks, never ask for a bit beyond
    their end. */
module FixedBlocks {
  import opened Common
  import opened Bits
  import opened Canonical
  import opened HuftPrepare
  import opened HuftSizes
  import opened Deflate
  import opened LookAhead

  lemma {:induction false} CountRepeat(a: seq<nat>, n: nat, x: nat, len: nat)
    ensures CountLen(a + Repeat(n, x), len) == CountLen(a, len) + if x == len then n else 0
  {
    if n == 0 {
      assert a + Repeat(n, x) == a;
    } else {
      CountRepeat(a, n - 1, x, len);
      var b := a + Repeat(n - 1, x);
      assert a + Repeat(n, x) == b + [x];
      assert (b + [x])[..|b|] == b;
    }
  }

  lemma FixedCounts(len: nat)
    ensures CountLen(FixedLiterals(), len) == if len == 7 then 24 else if len == 8 then 152 else if len == 9 then 112 else 0
    ensures CountLen(FixedDistances(), len) == if len == 5 then 30 else 0
  {
    hide CountLen;
    var a := Repeat(144, 8);
    var b := a + Repeat(112, 9);
    var c := b + Repeat(24, 7);
    assert [] + a == a && [] + Repeat(30, 5) == FixedDistances();
    CountRepeat([], 144, 8, len);
    CountRepeat(a, 112, 9, len);
    CountRepeat(b, 24, 7, len);
    CountRepeat(c, 8, 8, len);
    CountRepeat([], 30, 5, len);
    assert CountLen([], len) == 0 by { CountNone(len); }
  }

  lemma CountNone(len: nat)
    ensures CountLen([], len) == 0
  {
  }

  /** The only sizing of the fixed literal/length code. */
  ghost predicate IsFixedSizing(p: Sizing) {
    && SizingOk(p) && p.g == 9 && p.el == 7 && p.m == 7
    && p.c[7] == 24 && p.c[8] == 152 && p.c[9] == 112 && (forall j :: 1 <= j < 7 ==> p.c[j] == 0)
    && Base(p.c, 7, 9) == 0 && Base(p.c, 8, 9) == 96 && Base(p.c, 9, 9) == 400
  }

  lemma FixedSizing(p: Sizing)
    requires Sized(FixedLiterals(), p) && Clamped(p, FIXED_LITERAL_LIMIT)
    ensures IsFixedSizing(p)
  {
    hide Pow2, Base, CountLen;
    assert |FixedLiterals()| == 288 && FixedLiterals()[256] == 7 && FixedLiterals()[200] == 9;
    FixedCounts(p.g);
    FixedCounts(7);
    FixedCounts(8);
    forall j | 1 <= j < 7 ensures p.c[j] == 0 {
      FixedCounts(j);
    }
    assert p.g == 9;
    SmallPowers();
    BaseOfNothing(p.c, 7, 9);
    BaseStep(p.c, 7, 9);
    BaseStep(p.c, 8, 9);
    BaseStep(p.c, 9, 9);
  }

  /** The first table has seven bits, one more than fits the limit being cut off
      where end-of-block ends. */
  lemma FixedRoot(p: Sizing)
    requires IsFixedSizing(p)
    ensures TableAt(p, [], 7)
  {
    hide Base, Pow2;
    SmallPowers();
    TakenFirst(p, 7, 23);
    assert !Fills(p, 7, 23, 0, 7) by { hide TakenUp; }
    assert SmallestFilled(p, 7, 23, 0, Limit(p, 0), 8) by { hide TakenUp; }
    assert SizeChosen(p, 7, 23, 0, 7);
    assert OpensAt(p, [], 7, 0, 7) by { assert Val([], 9) == 0; assert Start(p.c, 7, 0, 9) == Base(p.c, 7, 9); }
  }

  /** A table behind it is filled by the codes of the length it is opened for. */
  lemma FixedBranch(p: Sizing, path: seq<bool>, k: nat, rank: nat, j: nat)
    requires IsFixedSizing(p) && 7 <= |path| <= 8 && OpensAt(p, path, k, rank, j)
    ensures j == k - |path|
  {
    hide Base, Pow2, Start, Val, TakenUp;
    SmallPowers();
    ValIsMsb(path, 9);
    StartIsProduct(p.c, k, rank, 9);
    TakenFirst(p, k, p.c[k] - rank - 1);
    if |path| == 7 && k == 8 {
      EvenRank(Msb(path), rank);
    } else if |path| == 7 {
      assert rank % 4 == 0;
    } else {
      assert rank % 2 == 0;
    }
    assert Fills(p, k, p.c[k] - rank - 1, |path|, k - |path|);
  }

  lemma EvenRank(m: nat, rank: nat)
    requires m * 4 == 96 + rank * 2
    ensures rank % 2 == 0
  {
  }

  lemma FixedAsks(p: Sizing, code: seq<bool>, r: nat)
    requires IsFixedSizing(p) && 7 <= |code| <= 9 && r < p.c[|code|] && Val(code, 9) == Start(p.c, |code|, r, 9)
    ensures Asked(p, code, 0) == |code|
  {
    hide Base, Pow2, Start, Val, TakenUp, SizeChosen, IsFixedSizing, TableAt;
    FixedRoot(p);
    assert code[..0] == [];
    TableSizeIs(p, [], 7);
    if |code| > 7 {
      FixedFrom(p, code, 7, r);
    }
  }

  lemma {:induction false} FixedFrom(p: Sizing, code: seq<bool>, w: nat, r: nat)
    requires IsFixedSizing(p) && 7 <= w < |code| <= 9 && r < p.c[|code|] && Val(code, 9) == Start(p.c, |code|, r, 9)
    ensures Asked(p, code, w) == |code|
    decreases |code| - w
  {
    hide Base, Pow2, Start, Val, TakenUp, SizeChosen, OpensAt;
    var path := code[..w];
    if j :| j >= 1 && TableAt(p, path, j) {
      TableSizeIs(p, path, j);
      var k: nat, rank: nat :| OpensAt(p, path, k, rank, j);
      FixedBranchEnds(p, path, k, rank, j, code, r);
    }
    if w + TableSize(p, path) < |code| {
      FixedFrom(p, code, w + TableSize(p, path), r);
    }
  }

  lemma FixedBranchEnds(p: Sizing, path: seq<bool>, k: nat, rank: nat, j: nat, code: seq<bool>, r: nat)
    requires IsFixedSizing(p) && 7 <= |path| < |code| <= 9 && OpensAt(p, path, k, rank, j)
    requires r < p.c[|code|] && code[..|path|] == path && Val(code, 9) == Start(p.c, |code|, r, 9)
    ensures |path| + j <= |code|
  {
    hide Base, Pow2, Start, Val, TakenUp, SizeChosen;
    NoneShorter(p, path, k, rank, j, code, r);
    FixedBranch(p, path, k, rank, j);
  }

  /** The fixed distance code has a single table of five bits. */
  lemma FixedDistanceAsks(p: Sizing, code: seq<bool>)
    requires Sized(FixedDistances(), p) && Clamped(p, FIXED_DISTANCE_LIMIT) && |code| == 5
    ensures Asked(p, code, 0) == 5
  {
    hide Pow2, Base, CountLen, TakenUp;
    FixedDistanceSizing(p);
    SmallPowers();
    TakenFirst(p, 5, 31);
    assert Fills(p, 5, 31, 0, 5);
    assert SmallestFilled(p, 5, 31, 0, Limit(p, 0), 5);
    assert SizeChosen(p, 5, 31, 0, 5);
    assert OpensAt(p, [], 5, 0, 5) by { assert Val([], 5) == 0; assert Start(p.c, 5, 0, 5) == Base(p.c, 5, 5); }
    assert code[..0] == [];
    TableSizeIs(p, [], 5);
  }

  lemma FixedDistanceSizing(p: Sizing)
    requires Sized(FixedDistances(), p) && Clamped(p, FIXED_DISTANCE_LIMIT)
    ensures p.g == 5 && p.m == 5 && p.c[5] == 32 && p.el == BMAX && Base(p.c, 5, 5) == 0
  {
    hide Pow2, Base, CountLen;
    assert |FixedDistances()| == 30 && FixedDistances()[0] == 5;
    FixedCounts(p.g);
    forall j | 1 <= j < 5 ensures p.c[j] == 0 {
      FixedCounts(j);
    }
    SmallPowers();
    BaseOfNothing(p.c, 5, 5);
    BaseStep(p.c, 5, 5);
  }

  /** No look-up of a fixed code asks for a bit beyond the code. */
  lemma FixedModest()
    ensures Modest(FixedLiterals(), AsksOf(FixedLiterals(), FIXED_LITERAL_LIMIT), 0)
    ensures Modest(FixedDistances(), AsksOf(FixedDistances(), FIXED_DISTANCE_LIMIT), 0)
  {
    hide AskedFor;
    forall sym | 0 <= sym < |FixedLiterals()| ensures AskedFor(FixedLiterals(), FIXED_LITERAL_LIMIT, sym) <= FixedLiterals()[sym] {
      FixedLiteralAsk(sym);
    }
    forall sym | 0 <= sym < |FixedDistances()| ensures AskedFor(FixedDistances(), FIXED_DISTANCE_LIMIT, sym) <= FixedDistances()[sym] {
      FixedDistanceAsk(sym);
    }
  }

  lemma FixedLiteralAsk(sym: nat)
    requires sym < |FixedLiterals()|
    ensures AskedFor(FixedLiterals(), FIXED_LITERAL_LIMIT, sym) <= FixedLiterals()[sym]
  {
    hide Asked, Sized, Clamped, FixedLiterals, CountLen, Val, Start, Code;
    var lens := FixedLiterals();
    if p, code :| Sized(lens, p) && Clamped(p, FIXED_LITERAL_LIMIT) && CodeOf(lens, sym, code) {
      AskIs(lens, FIXED_LITERAL_LIMIT, p, sym, code);
      FixedSizing(p);
      CodeIsStartOfSizing(lens, p, sym, code);
      FixedLength(sym);
      FixedAsks(p, code, CountLen(lens[..sym], lens[sym]));
    }
  }

  lemma FixedLength(sym: nat)
    requires sym < |FixedLiterals()|
    ensures 7 <= FixedLiterals()[sym] <= 9
  {
  }

  lemma FixedDistanceAsk(sym: nat)
    requires sym < |FixedDistances()|
    ensures AskedFor(FixedDistances(), FIXED_DISTANCE_LIMIT, sym) <= FixedDistances()[sym]
  {
    hide Asked, Sized, Clamped, CountLen, Val, Start, Code;
    var lens := FixedDistances();
    if p, code :| Sized(lens, p) && Clamped(p, FIXED_DISTANCE_LIMIT) && CodeOf(lens, sym, code) {
      AskIs(lens, FIXED_DISTANCE_LIMIT, p, sym, code);
      FixedDistanceAsks(p, code);
    }
  }

  /** A stored block, or one with the fixed codes, that the reference decoder
      accepts is fed whatever follows it. */
  lemma NeverStarves(kind: nat, s: seq<bool>, p: nat, h: seq<Byte>)
    requires kind < 2 && Block(kind, s, p, h).Good?
    ensures BlockFed(kind, s, p) == Some(Block(kind, s, p, h).p)
  {
    hide Codes, Fed, FixedLiterals, FixedDistances, AsksOf, StoredBytes, Number;
    if kind == 1 {
      FixedModest();
      FedWithSpare(FixedLiterals(), FixedDistances(), AsksOf(FixedLiterals(), FIXED_LITERAL_LIMIT),
        AsksOf(FixedDistances(), FIXED_DISTANCE_LIMIT), s, p, h, 0);
    }
  }
}
