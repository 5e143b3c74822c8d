/** The first half of huft_build: counting lengths, judging the code set, and
    sorting the symbols into the value table. */
module HuftPrepare {
  import opened Bits
  import opened Canonical

  const N_MAX := 288

  /** Contents of a value-table cell that the code never wrote. */
  const INDETERMINATE := -1

  /** How a symbol becomes a table entry: symbols below `simple` stand for
      themselves, the others index the base-value and extra-bits lists. */
  datatype Alphabet = Alphabet(simple: nat, base: seq<nat>, ext: seq<nat>)

  /** What the first half hands to the table builder. `c` holds the adjusted
      counts, in which dummy codes of length `g` fill the code space; `m` is the
      limit on the size of a table, between the shortest and longest length. */
  datatype Plan = Plan(n: nat, g: nat, c: seq<nat>, v: seq<int>, el: nat, m: nat, al: Alphabet)

  /** Place of a symbol in the order (length, symbol). */
  ghost function Position(lens: seq<nat>, c: seq<nat>, sym: nat): nat
    requires sym < |lens| && lens[sym] < |c|
  {
    Offset(c, lens[sym]) + CountLen(lens[..sym], lens[sym])
  }

  /** The value table lists the symbols that have a code in the order
      (length, symbol), and nothing else was written to it. */
  ghost predicate SortedValues(lens: seq<nat>, c: seq<nat>, v: seq<int>) {
    && (forall s :: 0 <= s < |lens| ==> lens[s] < |c|)
    && (forall s :: 0 <= s < |lens| && lens[s] != 0 ==> Position(lens, c, s) < |v| && v[Position(lens, c, s)] == s)
    && (forall i :: 0 <= i < |v| && v[i] != INDETERMINATE ==> 0 <= v[i] < |lens| && lens[v[i]] != 0 && Position(lens, c, v[i]) == i)
  }

  lemma {:induction false} OffsetAppend(lens: seq<nat>, len: nat, c: seq<nat>, d: seq<nat>, k: nat)
    requires Counts(lens, c) && Counts(lens + [len], d) && k <= BMAX + 1
    ensures Offset(d, k) == Offset(c, k) + (if 0 < len < k then 1 else 0)
  {
    if k > 1 {
      OffsetAppend(lens, len, c, d, k - 1);
      assert (lens + [len])[..|lens|] == lens;
      assert d[k - 1] == c[k - 1] + (if len == k - 1 then 1 else 0);
    }
  }

  lemma {:induction false} OffsetTotal(lens: seq<nat>, c: seq<nat>)
    requires Counts(lens, c) && forall s :: 0 <= s < |lens| ==> lens[s] <= BMAX
    ensures Offset(c, BMAX + 1) + c[0] == |lens|
  {
    if lens == [] {
      OffsetZero(c, BMAX + 1);
    } else {
      var n := |lens| - 1;
      var p := lens[..n];
      assert lens == p + [lens[n]];
      OffsetTotal(p, CountTable(p));
      OffsetAppend(p, lens[n], CountTable(p), c, BMAX + 1);
      assert lens[n] <= BMAX;
    }
  }

  lemma {:induction false} OffsetZero(c: seq<nat>, k: nat)
    requires k <= |c| && forall j :: 1 <= j < k ==> c[j] == 0
    ensures Offset(c, k) == 0
  {
    if k > 1 {
      OffsetZero(c, k - 1);
    }
  }

  lemma {:induction false} OffsetSame(c: seq<nat>, d: seq<nat>, k: nat)
    requires k <= |c| == |d| && forall j :: 1 <= j < k ==> c[j] == d[j]
    ensures Offset(c, k) == Offset(d, k)
  {
    if k > 1 {
      OffsetSame(c, d, k - 1);
    }
  }

  lemma {:induction false} BaseSame(c: seq<nat>, d: seq<nat>, k: nat, g: nat)
    requires k <= |c| == |d| && k <= g + 1 && forall j :: 1 <= j < k ==> c[j] == d[j]
    ensures Base(c, k, g) == Base(d, k, g)
  {
    if k > 1 {
      BaseSame(c, d, k - 1, g);
    }
  }

  lemma PositionBound(lens: seq<nat>, c: seq<nat>, s: nat)
    requires Counts(lens, c) && s < |lens| && lens[s] != 0
    requires forall i :: 0 <= i < |lens| ==> lens[i] <= BMAX
    ensures Position(lens, c, s) < |lens|
  {
    assert lens[s] <= BMAX;
    CountLenPrefix(lens, s, lens[s]);
    OffsetMonotone(c, lens[s], BMAX + 1);
    OffsetTotal(lens, c);
  }

  lemma PositionInjective(lens: seq<nat>, c: seq<nat>, s: nat, t: nat)
    requires Counts(lens, c) && s < |lens| && t < |lens| && s != t
    requires 0 < lens[s] <= BMAX && 0 < lens[t] <= BMAX
    ensures Position(lens, c, s) != Position(lens, c, t)
  {
    CountLenPrefix(lens, s, lens[s]);
    CountLenPrefix(lens, t, lens[t]);
    if lens[s] < lens[t] {
      OffsetMonotone(c, lens[s], lens[t]);
    } else if lens[t] < lens[s] {
      OffsetMonotone(c, lens[t], lens[s]);
    } else if s < t {
      RankInjective(lens, s, t);
    } else {
      RankInjective(lens, t, s);
    }
  }

  method CountLengths(b: seq<nat>) returns (c: seq<nat>)
    requires forall i :: 0 <= i < |b| ==> b[i] <= BMAX
    ensures Counts(b, c)
  {
    c := seq(BMAX + 1, _ => 0);
    for i := 0 to |b|
      invariant Counts(b[..i], c)
    {
      assert b[..i + 1][..i] == b[..i];
      c := c[b[i] := c[b[i]] + 1];
    }
    assert b[..|b|] == b;
  }

  lemma {:induction false} CountZero(lens: seq<nat>, len: nat)
    ensures CountLen(lens, len) == 0 <==> forall s :: 0 <= s < |lens| ==> lens[s] != len
    ensures CountLen(lens, len) <= |lens|
    ensures CountLen(lens, len) == |lens| <==> forall s :: 0 <= s < |lens| ==> lens[s] == len
  {
    if lens != [] {
      var n := |lens| - 1;
      CountZero(lens[..n], len);
      assert forall s :: 0 <= s < n ==> lens[..n][s] == lens[s];
      assert lens[n] == len || lens[n] != len;
    }
  }

  /** Shortest and longest code length in use. */
  method FindMinMax(b: seq<nat>, c: seq<nat>) returns (lo: nat, hi: nat)
    requires Counts(b, c) && c[0] != |b|
    requires forall i :: 0 <= i < |b| ==> b[i] <= BMAX
    ensures 1 <= lo <= hi <= BMAX && c[lo] > 0 && c[hi] > 0
    ensures forall j :: 1 <= j <= BMAX && c[j] > 0 ==> lo <= j <= hi
    ensures forall i :: 0 <= i < |b| ==> b[i] <= hi
  {
    CountZero(b, 0);
    var s :| 0 <= s < |b| && b[s] != 0;
    CountZero(b, b[s]);
    lo := 1;
    while lo <= BMAX && c[lo] == 0
      invariant 1 <= lo <= b[s] <= BMAX
      invariant forall j :: 1 <= j < lo ==> c[j] == 0
    {
      lo := lo + 1;
    }
    hi := BMAX;
    while hi != 0 && c[hi] == 0
      invariant b[s] <= hi <= BMAX
      invariant forall j :: hi < j <= BMAX ==> c[j] == 0
    {
      hi := hi - 1;
    }
    forall i | 0 <= i < |b| ensures b[i] <= hi {
      CountZero(b, b[i]);
    }
  }

  lemma {:induction false} BaseRescale(c: seq<nat>, k: nat, g: nat)
    requires k <= |c| && k <= g + 1
    ensures Base(c, k, g + 1) == 2 * Base(c, k, g)
  {
    if k > 1 {
      BaseRescale(c, k - 1, g);
      Associate(2, c[k - 1], Pow2(g + 1 - k));
      Associate(c[k - 1], 2, Pow2(g + 1 - k));
    }
  }

  /** The code space left after each length, `y` in the source. A negative
      result at any length means the set is over-subscribed. */
  method SpareCodes(c: seq<nat>, lo: nat, hi: nat) returns (over: bool, y: int)
    requires |c| == BMAX + 1 && 1 <= lo <= hi <= BMAX
    requires forall j :: 1 <= j < lo ==> c[j] == 0
    ensures y == Pow2(hi) - Base(c, hi + 1, hi) || over
    ensures over <==> Base(c, hi + 1, hi) > Pow2(hi)
    ensures !over ==> y >= 0
  {
    BaseOfNothing(c, lo, lo);
    var j := lo;
    y := Pow2(j);
    while j < hi
      invariant lo <= j <= hi
      invariant y == Pow2(j) - Base(c, j, j)
    {
      assert Base(c, j + 1, j) == Base(c, j, j) + c[j] * Pow2(0);
      y := y - c[j];
      if y < 0 {
        Overflow(c, j, hi);
        return true, y;
      }
      BaseRescale(c, j + 1, j);
      y := 2 * y;
      j := j + 1;
    }
    assert Base(c, hi + 1, hi) == Base(c, hi, hi) + c[hi] * Pow2(0);
    y := y - c[hi];
    over := y < 0;
  }

  lemma {:induction false} Overflow(c: seq<nat>, j: nat, g: nat)
    requires |c| == BMAX + 1 && j <= g <= BMAX && Base(c, j + 1, j) > Pow2(j)
    ensures Base(c, g + 1, g) > Pow2(g)
    decreases g - j
  {
    if j < g {
      BaseRescale(c, j + 1, j);
      Overflow(c, j + 1, g);
    }
  }

  /** Starting offset of each length in the value table. */
  method Offsets(c: seq<nat>, g: nat) returns (x: seq<nat>)
    requires |c| == BMAX + 1 && 1 <= g <= BMAX
    ensures |x| == BMAX + 1 && forall j :: 1 <= j <= g ==> x[j] == Offset(c, j)
  {
    x := seq(BMAX + 1, _ => 0);
    var j := 0;
    for i := 1 to g
      invariant |x| == BMAX + 1 && j == Offset(c, i)
      invariant forall k :: 1 <= k <= i ==> x[k] == Offset(c, k)
    {
      j := j + c[i];
      x := x[i + 1 := j];
    }
  }

  /** The sort is right for the first `i` symbols. */
  ghost predicate SortedUpTo(lens: seq<nat>, c: seq<nat>, v: seq<int>, i: nat)
    requires i <= |lens| && forall s :: 0 <= s < |lens| ==> lens[s] < |c|
  {
    && (forall s :: 0 <= s < i && lens[s] != 0 ==> Position(lens, c, s) < |v| && v[Position(lens, c, s)] == s)
    && (forall k :: 0 <= k < |v| && v[k] != INDETERMINATE ==> 0 <= v[k] < i && lens[v[k]] != 0 && Position(lens, c, v[k]) == k)
  }

  lemma SortStep(lens: seq<nat>, c: seq<nat>, v: seq<int>, i: nat)
    requires Counts(lens, c) && i < |lens| && |v| == N_MAX >= |lens|
    requires forall s :: 0 <= s < |lens| ==> lens[s] <= BMAX
    requires SortedUpTo(lens, c, v, i) && lens[i] != 0
    ensures Position(lens, c, i) < N_MAX
    ensures SortedUpTo(lens, c, v[Position(lens, c, i) := i], i + 1)
  {
    PositionBound(lens, c, i);
    forall s | 0 <= s < i && lens[s] != 0 ensures Position(lens, c, s) != Position(lens, c, i) {
      PositionInjective(lens, c, s, i);
    }
  }

  /** Counting sort of the symbols by length. */
  method SortSymbols(b: seq<nat>, c: seq<nat>, x0: seq<nat>, g: nat) returns (v: seq<int>)
    requires Counts(b, c) && 1 <= g <= BMAX && |b| <= N_MAX
    requires forall i :: 0 <= i < |b| ==> b[i] <= g
    requires |x0| == BMAX + 1 && forall j :: 1 <= j <= g ==> x0[j] == Offset(c, j)
    ensures |v| == N_MAX && SortedValues(b, c, v)
  {
    v := seq(N_MAX, _ => INDETERMINATE);
    var x := x0;
    for i := 0 to |b|
      invariant |x| == BMAX + 1 && |v| == N_MAX
      invariant forall j :: 1 <= j <= g ==> x[j] == Offset(c, j) + CountLen(b[..i], j)
      invariant SortedUpTo(b, c, v, i)
    {
      assert b[..i + 1][..i] == b[..i];
      var j := b[i];
      if j != 0 {
        SortStep(b, c, v, i);
        v := v[x[j] := i];
        x := x[j := x[j] + 1];
      }
    }
  }
}
