/** The sizes in bits of the tables huft_build makes, and how many bits the
    look-up of each code asks for. */
module HuftSizes {
  import opened Bits
  import opened Canonical
  import opened HuftPrepare

  /** What the sizes depend on: the adjusted counts, the greatest length, the
      length of the end-of-block code, and the limit. */
  datatype Sizing = Sizing(c: seq<nat>, g: nat, el: nat, m: nat)

  const OVERHANG := 8

  function SizingOf(p: Plan): Sizing { Sizing(p.c, p.g, p.el, p.m) }

  ghost predicate SizingOk(p: Sizing) {
    1 <= p.g <= BMAX && |p.c| == BMAX + 1 && Base(p.c, p.g + 1, p.g) == Pow2(p.g)
  }

  /** The counts of the lengths `lens`, but for the dummy codes of the greatest
      length that fill the code space. */
  ghost predicate Sized(lens: seq<nat>, p: Sizing) {
    && SizingOk(p) && (forall s :: 0 <= s < |lens| ==> lens[s] <= p.g)
    && p.c[p.g] >= CountLen(lens, p.g) > 0
    && (forall len :: 0 <= len <= BMAX && len != p.g ==> p.c[len] == CountLen(lens, len))
    && p.el == (if |lens| > 256 then lens[256] else BMAX)
  }

  ghost predicate Prepared(lens: seq<nat>, p: Plan) {
    p.n == |lens| <= N_MAX == |p.v| && Sized(lens, SizingOf(p)) && SortedValues(lens, p.c, p.v)
  }

  /** The limit `m0` of the caller, moved between shortest and longest length. */
  ghost predicate Clamped(p: Sizing, m0: nat) {
    p.g < |p.c| &&
    exists lo ::
      && 1 <= lo <= p.g && p.c[lo] > 0 && (forall j :: 1 <= j < lo ==> p.c[j] == 0)
      && p.m == (var m := if m0 < lo then lo else m0; if m > p.g then p.g else m)
  }

  /** How many patterns of `n` bits the codes yet to come take up, those of more
      than `n` bits left out: `a + 1` codes of `k` bits, then the longer ones. */
  ghost function TakenUp(p: Sizing, k: nat, a: nat, n: nat): int
    requires SizingOk(p) && 1 <= k <= n <= p.g
  {
    (a + 1) * Pow2(n - k) + Base(p.c, n + 1, n) - Base(p.c, k + 1, n)
  }

  /** A table of `j` bits, after the first `w`, has room for no code longer than
      itself. */
  ghost predicate Fills(p: Sizing, k: nat, a: nat, w: nat, j: nat)
    requires SizingOk(p) && 1 <= k <= w + j <= p.g
  {
    TakenUp(p, k, a, w + j) >= Pow2(j)
  }

  /** The smallest size that holds the present code and is filled; or, if that
      is no larger than the limit `z`, the limit. A table that cannot hold the
      present code without spare room gets at least one bit more. */
  ghost predicate SmallestFilled(p: Sizing, k: nat, a: nat, w: nat, z: nat, j: nat)
    requires SizingOk(p) && w < k
  {
    && k - w <= j <= p.g - w
    && (forall i :: k - w <= i < j ==> !Fills(p, k, a, w, i))
    && (j <= k - w + 1 || j <= z)
    && (Fills(p, k, a, w, j) || (j > k - w && j >= z))
  }

  /** This determines the size, and the limit is exceeded exactly where the
      present code alone needs more, or needs just the limit and leaves room. */
  lemma SizeIsFixed(p: Sizing, k: nat, a: nat, w: nat, z: nat, i: nat, j: nat)
    requires SizingOk(p) && w < k && SmallestFilled(p, k, a, w, z, i) && SmallestFilled(p, k, a, w, z, j)
    ensures i == j
    ensures j > z <==> k - w > z || (k - w == z && !Fills(p, k, a, w, k - w))
    ensures j <= z || j <= k - w + 1
  {
    hide TakenUp, Pow2, Base;
  }

  lemma TakenFirst(p: Sizing, k: nat, a: nat)
    requires SizingOk(p) && 1 <= k <= p.g
    ensures TakenUp(p, k, a, k) == a + 1
  {
  }

  lemma DoubleAgain(n: nat)
    requires n > 0
    ensures Pow2(0) == 1 && Pow2(n) == 2 * Pow2(n - 1)
  {
  }

  lemma TakenNext(p: Sizing, k: nat, a: nat, n: nat)
    requires SizingOk(p) && 1 <= k < n <= p.g
    ensures TakenUp(p, k, a, n) == 2 * TakenUp(p, k, a, n - 1) + p.c[n]
  {
    hide Base, Pow2;
    assert Pow2(0) == 1 && Pow2(n - k) == 2 * Pow2(n - 1 - k) by { DoubleAgain(n - k); }
    BaseStep(p.c, n, n);
    BaseRescale(p.c, n, n - 1);
    BaseRescale(p.c, k + 1, n - 1);
    Associate(a + 1, 2, Pow2(n - 1 - k));
  }

  lemma RoomFirst(p: Sizing, k: nat, a: nat, w: nat)
    requires SizingOk(p) && w < k <= p.g
    ensures Pow2(k - w) - TakenUp(p, k, a, k) > 0 <==> !Fills(p, k, a, w, k - w)
  {
  }

  /** One more bit doubles the room that is left, less the codes of that length. */
  lemma RoomNext(p: Sizing, k: nat, a: nat, w: nat, j: nat, f: int)
    requires SizingOk(p) && w < k < w + j <= p.g && f == Pow2(j - 1) - TakenUp(p, k, a, w + j - 1)
    ensures 2 * f <= p.c[w + j] <==> Fills(p, k, a, w, j)
    ensures 2 * f - p.c[w + j] == Pow2(j) - TakenUp(p, k, a, w + j)
  {
    hide TakenUp, Base;
    TakenNext(p, k, a, w + j);
  }

  /** The end-of-block code ends where a table does (lines 545-546). */
  function CutAt(el: nat, w: nat, j: nat): nat {
    if w < el < w + j then el - w else j
  }

  function Limit(p: Sizing, w: nat): nat
    requires w <= p.g
  {
    if p.g - w > p.m then p.m else p.g - w
  }

  ghost predicate SizeChosen(p: Sizing, k: nat, a: nat, w: nat, j: nat)
    requires SizingOk(p) && w < k <= p.g
  {
    exists n :: SmallestFilled(p, k, a, w, Limit(p, w), n) && j == CutAt(p.el, w, n)
  }

  // ---------------------------------------------------------------- tables along a code

  /** A table of `j` bits is opened at `path` for the `rank`-th code of `k` bits. */
  ghost predicate OpensAt(p: Sizing, path: seq<bool>, k: nat, rank: nat, j: nat) {
    && SizingOk(p) && |path| < k <= p.g && rank < p.c[k]
    && Val(path, p.g) == Start(p.c, k, rank, p.g)
    && SizeChosen(p, k, p.c[k] - rank - 1, |path|, j)
  }

  ghost predicate TableAt(p: Sizing, path: seq<bool>, j: nat) {
    exists k: nat, rank: nat :: OpensAt(p, path, k, rank, j)
  }

  /** Bits the table at `path` looks at. */
  ghost function TableSize(p: Sizing, path: seq<bool>): (j: nat)
    ensures j >= 1
  {
    if exists j :: j >= 1 && TableAt(p, path, j) then
      var j :| j >= 1 && TableAt(p, path, j);
      j
    else 1
  }

  /** Bits asked for by the look-up of `code`, from the table after its first
      `w` bits on. */
  ghost function Asked(p: Sizing, code: seq<bool>, w: nat): (n: nat)
    requires w < |code|
    ensures n >= |code|
    decreases |code| - w
  {
    var n := w + TableSize(p, code[..w]);
    if n >= |code| then n else Asked(p, code, n)
  }

  lemma TableAtBits(p: Sizing, path: seq<bool>, j: nat)
    requires TableAt(p, path, j)
    ensures SizingOk(p) && 1 <= j <= p.g - |path| && (|path| < p.el ==> |path| + j <= p.el)
  {
    hide TakenUp, Pow2, Base, Val, Start;
  }

  /** Slots of the code order with the same start are the same. */
  lemma SameStart(p: Sizing, k: nat, r: nat, k': nat, r': nat)
    requires SizingOk(p) && 1 <= k <= p.g && 1 <= k' <= p.g && r < p.c[k] && r' < p.c[k']
    requires Start(p.c, k, r, p.g) == Start(p.c, k', r', p.g)
    ensures k == k' && r == r'
  {
    hide Pow2, Base, Start;
    if k < k' || (k == k' && r < r') {
      StartOrder(p.c, k, r, k', r', p.g);
    } else if k' < k || r' < r {
      StartOrder(p.c, k', r', k, r, p.g);
    }
  }

  lemma TableSizeIs(p: Sizing, path: seq<bool>, j: nat)
    requires TableAt(p, path, j)
    ensures TableSize(p, path) == j
  {
    hide TakenUp, Pow2, Base, Val, Start, SizeChosen;
    TableAtBits(p, path, j);
    var i := TableSize(p, path);
    var k: nat, r: nat :| OpensAt(p, path, k, r, j);
    var k': nat, r': nat :| OpensAt(p, path, k', r', i);
    SameStart(p, k, r, k', r');
    SameSize(p, k, p.c[k] - r - 1, |path|, i, j);
  }

  lemma SameSize(p: Sizing, k: nat, a: nat, w: nat, i: nat, j: nat)
    requires SizingOk(p) && w < k <= p.g && SizeChosen(p, k, a, w, i) && SizeChosen(p, k, a, w, j)
    ensures i == j
  {
    hide TakenUp, Pow2, Base, SmallestFilled;
    var x :| SmallestFilled(p, k, a, w, Limit(p, w), x) && i == CutAt(p.el, w, x);
    var y :| SmallestFilled(p, k, a, w, Limit(p, w), y) && j == CutAt(p.el, w, y);
    SizeIsFixed(p, k, a, w, Limit(p, w), x, y);
  }

  /** The codes below a table are no shorter than the one it was opened for. */
  lemma NoneShorter(p: Sizing, path: seq<bool>, k: nat, rank: nat, j: nat, code: seq<bool>, r: nat)
    requires OpensAt(p, path, k, rank, j)
    requires |path| < |code| <= p.g && r < p.c[|code|] && code[..|path|] == path
    requires Val(code, p.g) == Start(p.c, |code|, r, p.g)
    ensures k <= |code|
  {
    hide TakenUp, Pow2, Base, Val, Start, SizeChosen;
    if |code| < k {
      StartOrder(p.c, |code|, r, k, rank, p.g);
      ValPrefix(code, |path|, p.g);
    }
  }

  /** How far a look-up may reach beyond the code it finds. */
  lemma {:induction false} AskedBound(p: Sizing, code: seq<bool>, w: nat, r: nat)
    requires SizingOk(p) && w < |code| <= p.g && r < p.c[|code|] && Val(code, p.g) == Start(p.c, |code|, r, p.g)
    ensures Asked(p, code, w) <= p.g
    ensures Asked(p, code, w) <= |code| + if p.m <= 2 then 1 else p.m - 1
    decreases |code| - w
  {
    hide TakenUp, Pow2, Base, Val, Start, SizeChosen, OpensAt;
    var path := code[..w];
    var n := w + TableSize(p, path);
    if n < |code| {
      AskedBound(p, code, n, r);
    } else if j :| TableAt(p, path, j) {
      TableSizeIs(p, path, j);
      TableAtBits(p, path, j);
      var k: nat, rank: nat :| OpensAt(p, path, k, rank, j);
      NoneShorter(p, path, k, rank, j, code, r);
      SizeBound(p, path, k, rank, j);
    }
  }

  lemma SizeBound(p: Sizing, path: seq<bool>, k: nat, rank: nat, j: nat)
    requires OpensAt(p, path, k, rank, j)
    ensures |path| < k && j - (k - |path|) <= if p.m <= 2 then 1 else p.m - 1
  {
    hide TakenUp, Pow2, Base, Val, Start, Fills;
  }

  /** The end-of-block code is asked for to its end and no further. */
  lemma {:induction false} AskedEnd(p: Sizing, code: seq<bool>, w: nat)
    requires w < |code| == p.el
    ensures Asked(p, code, w) == p.el
    decreases |code| - w
  {
    hide TableAt;
    var path := code[..w];
    var n := w + TableSize(p, path);
    if j :| TableAt(p, path, j) {
      TableSizeIs(p, path, j);
      TableAtBits(p, path, j);
    }
    if n < |code| {
      AskedEnd(p, code, n);
    }
  }

  /** Two codes, of 7 and 8 bits, with a limit of 6: the first table has 8 bits,
      one more than the limit, which the shorter code has already raised to 7. */
  lemma LimitExceeded() returns (p: Sizing)
    ensures Sized([7, 8], p) && Clamped(p, 6)
    ensures Limit(p, 0) == 7 && SizeChosen(p, 7, 0, 0, 8) && TableSize(p, []) == 8
  {
    hide Pow2, TakenUp, Base;
    var c := CountTable([7, 8]);
    p := Sizing(c[8 := 254], 8, BMAX, 7);
    assert c[7] == 1 && c[8] == 1 && c[0] == 0 && forall j :: 1 <= j < 7 ==> c[j] == 0 by { TwoCounts(); }
    assert Pow2(0) == 1 && Pow2(1) == 2 && Pow2(7) == 128 && Pow2(8) == 256 by { SmallPowers(); }
    BaseOfNothing(p.c, 7, 8);
    BaseStep(p.c, 7, 8);
    BaseStep(p.c, 8, 8);
    assert SizingOk(p) && Sized([7, 8], p);
    assert p.c[7] > 0 && Clamped(p, 6);
    TakenFirst(p, 7, 0);
    TakenNext(p, 7, 0, 8);
    assert SmallestFilled(p, 7, 0, 0, Limit(p, 0), 8);
    assert OpensAt(p, [], 7, 0, 8) by { assert Val([], 8) == 0; assert Start(p.c, 7, 0, 8) == Base(p.c, 7, 8); }
    TableSizeIs(p, [], 8);
  }

  lemma TwoCounts()
    ensures forall len: nat :: CountLen([7, 8], len) == if len == 7 || len == 8 then 1 else 0
  {
    forall len: nat ensures CountLen([7, 8], len) == if len == 7 || len == 8 then 1 else 0 {
      assert [7, 8][..1] == [7] && [7][..0] == [];
      assert CountLen([7], len) == CountLen([], len) + if len == 7 then 1 else 0;
    }
  }

  lemma SmallPowers()
    ensures Pow2(0) == 1 && Pow2(1) == 2 && Pow2(2) == 4 && Pow2(4) == 16 && Pow2(5) == 32 && Pow2(7) == 128 && Pow2(8) == 256 && Pow2(9) == 512
  {
    assert Pow2(5) == 32;
  }

  // ---------------------------------------------------------------- bits asked for

  /** A symbol's code, as an interval, starts where its length and rank say. */
  lemma CodeIsStartOfSizing(lens: seq<nat>, p: Sizing, sym: nat, bits: seq<bool>)
    requires Sized(lens, p) && sym < |lens| && 1 <= lens[sym] == |bits|
    ensures lens[sym] <= p.g && CountLen(lens[..sym], lens[sym]) < p.c[lens[sym]]
    ensures CodeOf(lens, sym, bits) <==>
            Val(bits, p.g) == Start(p.c, lens[sym], CountLen(lens[..sym], lens[sym]), p.g)
  {
    hide Val, Pow2, Start, Base, CodeOf, CountLen;
    var c := CountTable(lens);
    assert lens[sym] <= p.g;
    CountLenPrefix(lens, sym, lens[sym]);
    CodeIsStart(lens, c, sym, bits, p.g);
    BaseSame(p.c, c, lens[sym], p.g);
    StartIsProduct(p.c, lens[sym], CountLen(lens[..sym], lens[sym]), p.g);
    StartIsProduct(c, lens[sym], CountLen(lens[..sym], lens[sym]), p.g);
  }

  /** Bits the look-up of each symbol asks for, in tables for the lengths `lens`
      made with the limit `m0`. */
  ghost function AsksOf(lens: seq<nat>, m0: nat): (ask: seq<nat>)
    ensures |ask| == |lens|
  {
    seq(|lens|, (sym: nat) => AskedFor(lens, m0, sym))
  }

  ghost function AskedFor(lens: seq<nat>, m0: nat, sym: nat): nat {
    if exists p, code :: Sized(lens, p) && Clamped(p, m0) && CodeOf(lens, sym, code) then
      var p, code :| Sized(lens, p) && Clamped(p, m0) && CodeOf(lens, sym, code);
      Asked(p, code, 0)
    else 0
  }

  lemma SizingIsFixed(lens: seq<nat>, m0: nat, p: Sizing, q: Sizing)
    requires Sized(lens, p) && Clamped(p, m0) && Sized(lens, q) && Clamped(q, m0)
    ensures p == q
  {
    hide Pow2, Base, CountLen;
    CountZero(lens, p.g);
    CountZero(lens, q.g);
    assert p.g == q.g;
    BaseSame(p.c, q.c, p.g, p.g);
    BaseStep(p.c, p.g, p.g);
    BaseStep(q.c, q.g, q.g);
    assert Pow2(0) == 1 by { DoubleAgain(1); }
    assert p.c == q.c;
  }

  lemma AskIs(lens: seq<nat>, m0: nat, p: Sizing, sym: nat, code: seq<bool>)
    requires Sized(lens, p) && Clamped(p, m0) && CodeOf(lens, sym, code)
    ensures AsksOf(lens, m0)[sym] == Asked(p, code, 0)
  {
    hide Asked, Sized, Clamped;
    var q, code' :| Sized(lens, q) && Clamped(q, m0) && CodeOf(lens, sym, code') && AskedFor(lens, m0, sym) == Asked(q, code', 0);
    SizingIsFixed(lens, m0, p, q);
    MsbInjective(code, code');
  }

  /** With a limit of up to 9 no look-up reaches more than 8 bits beyond the code
      it finds, and that of end-of-block does not reach beyond it at all. */
  lemma AskRange(lens: seq<nat>, m0: nat, p: Sizing, sym: nat, code: seq<bool>)
    requires Sized(lens, p) && Clamped(p, m0) && CodeOf(lens, sym, code) && m0 <= 9
    ensures lens[sym] <= AsksOf(lens, m0)[sym] <= lens[sym] + OVERHANG
    ensures sym == 256 ==> AsksOf(lens, m0)[sym] == lens[sym]
  {
    hide Asked, Val, Pow2, Start, Base, CountLen;
    AskIs(lens, m0, p, sym, code);
    CodeIsStartOfSizing(lens, p, sym, code);
    AskedBound(p, code, 0, CountLen(lens[..sym], lens[sym]));
    if sym == 256 {
      AskedEnd(p, code, 0);
    }
  }
}
