/** huft_build: backing up over finished tables, the loop over the codes, and
    the whole routine. */
module HuftBuilder {
  import opened Bits
  import opened Canonical
  import opened HuftPrepare
  import opened HuftSizes
  import opened HuftTables
  import opened HuftWalk
  import opened HuftOpen
  import opened HuftFill

  /** The next code has left the innermost table: nothing more comes there. */
  lemma LeftTable(p: Plan, n: nat, code: seq<bool>, next: seq<bool>, cur: nat)
    requires n <= |code| == |next| <= p.g && next == Succ(code)
    requires cur == Val(code, p.g) + Pow2(p.g - |code|)
    requires next[..n] != code[..n]
    ensures Val(code[..n], p.g) + Pow2(p.g - n) <= cur
  {
    hide Val, Pow2, Succ, AllOnes;
    SuccVal(code, p.g);
    if AllOnes(code) {
      ValBound(code[..n], p.g);
    } else {
      ValPrefix(code, n, p.g);
      OutOfInterval(code[..n], next, p.g);
    }
  }

  lemma OutOfInterval(path: seq<bool>, next: seq<bool>, g: nat)
    requires |path| <= |next| <= g && next[..|path|] != path && Val(path, g) <= Val(next, g)
    ensures Val(path, g) + Pow2(g - |path|) <= Val(next, g)
  {
    hide Val, Pow2;
    if Val(next, g) < Val(path, g) + Pow2(g - |path|) {
      ValOverlap(path, next, g);
    }
  }

  /** Backs up over finished tables (lines 604-606). */
  method Backup(p: Plan, s0: Work, i: nat, ghost tr: Trail, ghost code: seq<bool>, ghost cur: nat) returns (s: Work)
    requires Between(p, s0, tr, code, cur)
    requires cur == Val(code, p.g) + Pow2(p.g - |code|) && i == Lsb(Succ(code))
    ensures Between(p, s, tr, code, cur) && s.tables == s0.tables
    ensures s.w <= |code| && Succ(code)[..s.w] == code[..s.w]
  {
    hide Val, Pow2, Lsb, Succ, Filled, Shape, Retired, Nested, Chained;
    s := s0;
    InnermostPattern(s, tr, code);
    while i % Pow2(s.w) != s.x[|s.x| - 1]
      invariant Between(p, s, tr, code, cur) && s.tables == s0.tables
      invariant |s.x| == |s.u| == |s.l|
      invariant s.w < |code| && s.x[|s.x| - 1] == Lsb(code[..s.w]) && (|s.u| == 1 ==> s.w == 0)
      invariant tr.paths[s.u[|s.u| - 1]] == code[..s.w]
      decreases s.w
    {
      LsbSplit(Succ(code), s.w);
      LeftTable(p, s.w, code, Succ(code), cur);
      PoppedBetween(p, s, tr, code, cur);
      s := Popped(s);
      InnermostPattern(s, tr, code);
    }
    LsbSplit(Succ(code), s.w);
    LsbInjective(Succ(code)[..s.w], code[..s.w]);
  }

  lemma InnermostPattern(s: Work, tr: Trail, code: seq<bool>)
    requires Stack(s, tr, code) && s.u != []
    ensures |s.x| == |s.u| == |s.l| && s.w < |code| && s.x[|s.x| - 1] == Lsb(code[..s.w])
    ensures |s.u| == 1 ==> s.w == 0
    ensures s.u[|s.u| - 1] < |tr.paths| && tr.paths[s.u[|s.u| - 1]] == code[..s.w]
  {
    hide Lsb;
    assert OnPath(s, tr, code, |s.u| - 1);
  }

  /** The builder's state between two codes. */
  ghost predicate Ready(p: Plan, s: Work, tr: Trail, code: seq<bool>, cur: nat, i: nat) {
    && PlanOk(p) && 1 <= |code| <= p.g
    && Shape(p, s.tables, tr) && Filled(p, s.tables, tr, cur)
    && Stack(s, tr, code) && Retired(p, s, tr, cur)
    && (cur < Pow2(p.g) ==> cur == Val(code, p.g) && i == Lsb(code))
    && (s.u == [] ==> cur == 0)
  }

  /** The bits shared with the next code lead through the same open tables. */
  lemma SameStack(s: Work, tr: Trail, code: seq<bool>, next: seq<bool>)
    requires Stack(s, tr, code) && s.w <= |code| <= |next| && next[..s.w] == code[..s.w]
    ensures Stack(s, tr, next)
  {
    hide Lsb, Chained;
    forall n | 0 <= n < |s.u| ensures OnPath(s, tr, next, n) {
      assert OnPath(s, tr, code, n);
      assert |tr.paths[s.u[n]]| <= s.w;
      assert next[..s.w][..|tr.paths[s.u[n]]|] == next[..|tr.paths[s.u[n]]|];
      assert code[..s.w][..|tr.paths[s.u[n]]|] == code[..|tr.paths[s.u[n]]|];
    }
  }

  lemma NextReady(p: Plan, s: Work, tr: Trail, code: seq<bool>, cur: nat)
    requires Between(p, s, tr, code, cur) && cur == Val(code, p.g) + Pow2(p.g - |code|)
    requires s.w <= |code| && Succ(code)[..s.w] == code[..s.w]
    ensures Ready(p, s, tr, Succ(code), cur, Lsb(Succ(code)))
  {
    hide Val, Pow2, Lsb, Succ, Filled, Shape, Retired, Stack;
    SuccVal(code, p.g);
    SameStack(s, tr, code, Succ(code));
  }

  lemma LongerReady(p: Plan, s: Work, tr: Trail, code: seq<bool>, cur: nat, i: nat)
    requires Ready(p, s, tr, code, cur, i) && |code| < p.g
    ensures Ready(p, s, tr, code + [false], cur, i)
  {
    hide Val, Pow2, Lsb, Filled, Shape, Retired, Stack;
    LsbZeros(code, 1);
    assert seq(1, _ => false) == [false];
    ValExtend(code, p.g);
    WithinCode(s, tr, code);
    assert (code + [false])[..s.w] == code[..s.w];
    SameStack(s, tr, code, code + [false]);
  }

  lemma WithinCode(s: Work, tr: Trail, code: seq<bool>)
    requires Stack(s, tr, code)
    ensures s.w <= |code|
  {
    if s.u != [] {
      assert OnPath(s, tr, code, |s.u| - 1);
    }
  }

  lemma InnermostUpdate(s: Work, tr: Trail, code: seq<bool>, tables: seq<seq<Huft>>)
    requires Stack(s, tr, code) && s.u != [] && |tables| == |s.tables|
    requires forall n :: 0 <= n < |tables| && n != s.u[|s.u| - 1] ==> tables[n] == s.tables[n]
    ensures Stack(s.(tables := tables), tr, code)
  {
    hide Lsb;
    var s' := s.(tables := tables);
    forall i | 0 <= i < |s.u| ensures OnPath(s', tr, code, i) {
      assert OnPath(s, tr, code, i);
    }
    forall i, j | 0 <= i < j < |s.u| && j == i + 1 ensures Joined(tables, tr, s.u[i], s.u[j]) {
      assert Joined(s.tables, tr, s.u[i], s.u[j]);
    }
  }

  /** After the entries of `code` are written. */
  lemma FilledBetween(p: Plan, s: Work, tr: Trail, code: seq<bool>, cur: nat, rank: nat, tables: seq<seq<Huft>>, r: Huft)
    requires Inv(p, s, tr, code, cur) && s.u != [] && s.w < |code| <= s.Reach()
    requires rank < p.c[|code|] && cur == Start(p.c, |code|, rank, p.g)
    requires r == EntryFor(p, Offset(p.c, |code|) + rank, |code| - s.w)
    requires FilledWith(s, tables, Pow2(|code| - s.w), Lsb(code[s.w..]), r)
    ensures Between(p, s.(tables := tables), tr, code, cur + Pow2(p.g - |code|))
  {
    hide Val, Pow2, Lsb, Start, Offset, EntryFor;
    FilledShape(p, s, tr, tables, Pow2(|code| - s.w), Lsb(code[s.w..]), r);
    InnermostUpdate(s, tr, code, tables);
    forall t, j | 0 <= t < |tables| && 0 <= j < |tables[t]| && Val(Path(tr, t, j), p.g) < cur + Pow2(p.g - |code|)
      ensures CellDone(p, tr, cur + Pow2(p.g - |code|), t, j, tables[t][j])
    {
      FilledCell(p, s, tr, code, cur, rank, tables, r, t, j);
    }
  }

  lemma FilledShape(p: Plan, s: Work, tr: Trail, tables: seq<seq<Huft>>, f: nat, i0: nat, r: Huft)
    requires Shape(p, s.tables, tr) && s.u != [] && s.u[|s.u| - 1] < |s.tables| && f > 0
    requires FilledWith(s, tables, f, i0, r)
    ensures Shape(p, tables, tr)
  {
  }

  lemma StartBound(p: Plan, k: nat, rank: nat)
    requires PlanOk(p) && 1 <= k <= p.g && rank < p.c[k]
    ensures Start(p.c, k, rank, p.g) + Pow2(p.g - k) <= Pow2(p.g)
    ensures k == p.g ==> Start(p.c, k, rank, p.g) + (p.c[k] - rank) == Pow2(p.g)
  {
    hide Pow2, Base, Start;
    StartIsProduct(p.c, k, rank, p.g);
    BaseMonotone(p.c, k + 1, p.g + 1, p.g);
    BaseStep(p.c, k, p.g);
    MulLe(rank + 1, p.c[k], Pow2(p.g - k));
    Distribute(rank, 1, Pow2(p.g - k));
    if k == p.g {
      assert Pow2(0) == 1 by { PowZero(); }
    }
  }

  lemma PowZero()
    ensures Pow2(0) == 1
  {
  }

  lemma ReadyInv(p: Plan, s: Work, tr: Trail, code: seq<bool>, cur: nat, i: nat)
    requires Ready(p, s, tr, code, cur, i) && cur < Pow2(p.g)
    ensures Inv(p, s, tr, code, cur)
  {
    hide Val, Pow2, Lsb, Filled, Shape, Retired, Stack;
  }

  /** Where the entries of `code` go in the innermost table. */
  lemma InnermostCells(p: Plan, s: Work, tr: Trail, code: seq<bool>, cur: nat)
    requires Inv(p, s, tr, code, cur) && s.u != []
    ensures s.u[|s.u| - 1] < |s.tables| && s.w < |code|
    ensures Lsb(code) / Pow2(s.w) == Lsb(code[s.w..]) < Pow2(|code| - s.w)
  {
    hide Val, Pow2, Lsb, Filled, Shape, Retired;
    Top(s, tr, code);
    LsbSplit(code, s.w);
    LsbBound(code[s.w..]);
  }

  /** Place of the `rank`-th code of length `k` as the source's pointer into the
      value table keeps it: it stops at the end of the table. */
  function Place(p: Plan, k: nat, rank: nat): nat
    requires k <= |p.c|
  {
    var x := Offset(p.c, k) + rank;
    if x < p.n then x else p.n
  }

  lemma PlaceEntry(p: Plan, k: nat, rank: nat, b: nat)
    requires k <= |p.c| && p.n <= |p.v|
    ensures EntryFor(p, Place(p, k, rank), b) == EntryFor(p, Offset(p.c, k) + rank, b)
  {
  }

  /** Tables, fills and links for one code, the `rank`-th of its length
      (lines 522-606). */
  method PlaceCode(p: Plan, s0: Work, i0: nat, idx: nat, k: nat, a: nat,
      ghost tr0: Trail, ghost code: seq<bool>, ghost cur: nat, ghost rank: nat)
    returns (s: Work, i: nat, ghost tr: Trail)
    requires Ready(p, s0, tr0, code, cur, i0) && |code| == k && p.n <= |p.v|
    requires rank < p.c[k] && a + 1 == p.c[k] - rank && cur == Start(p.c, k, rank, p.g)
    requires idx == Place(p, k, rank)
    ensures Ready(p, s, tr, Succ(code), cur + Pow2(p.g - k), i) && s.u != []
    ensures s0.u != [] ==> forall n :: RootBits(tr0, n) ==> RootBits(tr, n)
    ensures s0.u == [] && WholeCode(p, k, a, 0) ==> RootBits(tr, p.g)
  {
    hide Val, Pow2, Lsb, Filled, Shape, Retired, Stack, Start, Succ, Offset, EntryFor, RootBits, Inv, WholeCode, Between, Place, NextCode;
    StartBound(p, k, rank);
    ReadyInv(p, s0, tr0, code, cur, i0);
    PlacesNext(p, k, a, rank);
    s, tr := MakeTables(p, s0, k, a, i0, tr0, code, cur);
    InnermostCells(p, s, tr, code, cur);
    var top := s.u[|s.u| - 1];
    PlaceEntry(p, k, rank, k - s.w);
    var r := EntryFor(p, idx, k - s.w);
    var q := FillEvery(s.tables[top], i0 / Pow2(s.w), Pow2(k - s.w), r);
    FilledBetween(p, s, tr, code, cur, rank, s.tables[top := q], r);
    s := s.(tables := s.tables[top := q]);
    CodeStart(p, tr, code, cur, s0, i0, tr0);
    i := BackIncrement(i0, k, code);
    s := Backup(p, s, i, tr, code, cur + Pow2(p.g - k));
    NextReady(p, s, tr, code, cur + Pow2(p.g - k));
    BetweenOpen(p, s, tr, code, cur + Pow2(p.g - k));
  }

  lemma PlacesNext(p: Plan, k: nat, a: nat, rank: nat)
    requires PlanOk(p) && 1 <= k <= p.g && rank < p.c[k] && a + 1 == p.c[k] - rank
    ensures NextCode(p, k, a, Start(p.c, k, rank, p.g))
  {
  }

  lemma CodeStart(p: Plan, tr: Trail, code: seq<bool>, cur: nat, s0: Work, i0: nat, tr0: Trail)
    requires Ready(p, s0, tr0, code, cur, i0) && cur < Pow2(p.g)
    ensures cur == Val(code, p.g) && i0 == Lsb(code)
  {
  }

  lemma BetweenOpen(p: Plan, s: Work, tr: Trail, code: seq<bool>, cur: nat)
    requires Between(p, s, tr, code, cur)
    ensures s.u != []
  {
  }

  lemma NoBits(g: nat)
    ensures Val([], g) == 0
  {
  }

  lemma NothingOpen(p: Plan, code: seq<bool>)
    requires PlanOk(p)
    ensures Shape(p, [], Trail([], [])) && Filled(p, [], Trail([], []), 0)
    ensures Stack(Work([], [], [], [], 0), Trail([], []), code)
    ensures Retired(p, Work([], [], [], [], 0), Trail([], []), 0)
  {
  }

  /** Nothing is built yet. */
  lemma InitiallyReady(p: Plan, code: seq<bool>)
    requires PlanOk(p) && 1 <= |code| <= p.g && forall j :: 0 <= j < |code| ==> !code[j]
    ensures Ready(p, Work([], [], [], [], 0), Trail([], []), code, 0, 0)
  {
    hide Val, Pow2, Lsb, PlanOk, Filled, Shape, Retired, Stack;
    NothingOpen(p, code);
    assert code == [] + seq(|code|, _ => false);
    assert code == seq(|code|, _ => false);
    ValZeros([], |code|, p.g);
    LsbOfZeros(|code|);
    assert Val([], p.g) == 0 by { NoBits(p.g); }
  }

  /** Every code placed: the tables are finished. */
  lemma AllPlaced(p: Plan, s: Work, tr: Trail, code: seq<bool>, i: nat)
    requires Ready(p, s, tr, code, Pow2(p.g), i)
    ensures Finished(p, s.tables, tr) && |s.l| > 0 && s.l[0] == tr.bits[0]
  {
    hide Val, Lsb, Filled, Retired;
    assert OnPath(s, tr, code, 0);
  }

  lemma StartZero(p: Plan, k: nat, rank: nat)
    requires PlanOk(p) && 1 <= k <= p.g && Start(p.c, k, rank, p.g) == 0
    ensures rank == 0 && Base(p.c, k, p.g) == 0
  {
  }

  lemma StartEnd(p: Plan, k: nat)
    requires PlanOk(p) && 1 <= k <= p.g
    ensures Start(p.c, k, p.c[k], p.g) == Base(p.c, k + 1, p.g)
    ensures Offset(p.c, k + 1) == Offset(p.c, k) + p.c[k]
  {
    StartIsProduct(p.c, k, p.c[k], p.g);
    BaseStep(p.c, k, p.g);
  }

  /** The loop over lengths and codes (lines 504-611). */
  method BuildTables(p: Plan, lo: nat) returns (tables: seq<seq<Huft>>, m: nat, ghost tr: Trail)
    requires PlanOk(p) && 1 <= lo <= p.g && p.c[p.g] > 0
    requires forall j :: 1 <= j < lo ==> p.c[j] == 0
    ensures Finished(p, tables, tr) && m == tr.bits[0]
    ensures p.m >= p.g && p.el >= p.g ==> m == p.g
  {
    hide Val, Pow2, Lsb, Ready, Start, Succ, Offset, Base, EntryFor, RootBits, Place;
    var s, i, idx, k := Work([], [], [], [], 0), 0, 0, lo;
    tr := Trail([], []);
    ghost var code := seq(lo, _ => false);
    InitiallyReady(p, code);
    FirstPlace(p, lo);
    while k <= p.g
      invariant lo <= k <= p.g + 1
      invariant |code| == if k <= p.g then k else p.g
      invariant Ready(p, s, tr, code, Base(p.c, k, p.g), i)
      invariant idx == Place(p, k, 0)
      invariant s.u != [] && p.m >= p.g && p.el >= p.g ==> RootBits(tr, p.g)
    {
      var a := p.c[k];
      StartIsProduct(p.c, k, 0, p.g);
      while a > 0
        invariant 0 <= a <= p.c[k] && |code| == k
        invariant Ready(p, s, tr, code, Start(p.c, k, p.c[k] - a, p.g), i)
        invariant idx == Place(p, k, p.c[k] - a)
        invariant s.u != [] && p.m >= p.g && p.el >= p.g ==> RootBits(tr, p.g)
      {
        ghost var rank, s0 := p.c[k] - a, s;
        a := a - 1;
        FirstTable(p, s, tr, code, i, k, rank);
        StartBound(p, k, rank);
        s, i, tr := PlaceCode(p, s, i, idx, k, a, tr, code, Start(p.c, k, rank, p.g), rank);
        code := Succ(code);
        NextPlace(p, k, rank);
        if idx < p.n {
          idx := idx + 1;
        }
      }
      StartEnd(p, k);
      NextLength(p, k);
      k := k + 1;
      if k <= p.g {
        LongerReady(p, s, tr, code, Base(p.c, k, p.g), i);
        code := code + [false];
      }
    }
    AllPlaced(p, s, tr, code, i);
    tables, m := s.tables, s.l[0];
    RootIs(tr, p.g);
    StillEmpty(p, s, tr, code, i);
  }

  lemma FirstPlace(p: Plan, lo: nat)
    requires PlanOk(p) && 1 <= lo <= p.g && forall j :: 1 <= j < lo ==> p.c[j] == 0
    ensures Place(p, lo, 0) == 0 && Base(p.c, lo, p.g) == 0
  {
    OffsetZero(p.c, lo);
    BaseOfNothing(p.c, lo, p.g);
  }

  lemma NextPlace(p: Plan, k: nat, rank: nat)
    requires k <= |p.c|
    ensures Place(p, k, rank + 1) == (if Place(p, k, rank) < p.n then Place(p, k, rank) + 1 else Place(p, k, rank))
    ensures k <= p.g ==> Start(p.c, k, rank + 1, p.g) == Start(p.c, k, rank, p.g) + Pow2(p.g - k)
  {
  }

  lemma NextLength(p: Plan, k: nat)
    requires PlanOk(p) && 1 <= k <= p.g
    ensures Place(p, k + 1, 0) == Place(p, k, p.c[k])
  {
  }

  lemma FirstTable(p: Plan, s: Work, tr: Trail, code: seq<bool>, i: nat, k: nat, rank: nat)
    requires PlanOk(p) && 1 <= k <= p.g && rank < p.c[k] && p.c[p.g] > 0
    requires Ready(p, s, tr, code, Start(p.c, k, rank, p.g), i)
    ensures s.u == [] && p.m >= p.g && p.el >= p.g ==> WholeCode(p, k, p.c[k] - rank - 1, 0)
  {
    if s.u == [] {
      StartZero(p, k, rank);
    }
  }

  lemma RootIs(tr: Trail, n: nat)
    ensures RootBits(tr, n) ==> |tr.bits| > 0 && tr.bits[0] == n
  {
  }

  lemma StillEmpty(p: Plan, s: Work, tr: Trail, code: seq<bool>, i: nat)
    requires Ready(p, s, tr, code, Pow2(p.g), i)
    ensures s.u != []
  {
  }

  /** Result of huft_build: the source's return value, tables and table size. */
  datatype Built = Built(code: int, tables: seq<seq<Huft>>, m: nat)

  /** What huft_build returns for the lengths `b` (lines 461-465, 481-486, 614). */
  ghost predicate RightCode(b: seq<nat>, code: int) 
    requires forall i :: 0 <= i < |b| ==> b[i] <= BMAX
  {
    var full := Pow2(BMAX);
    && (code == 2 <==> Kraft(b, BMAX) > full)
    && (code == 1 <==> 0 < Kraft(b, BMAX) < full && exists i :: 0 <= i < |b| && b[i] > 1)
    && (code == 0 || code == 1 || code == 2)
  }

  lemma ReturnRight(b: seq<nat>, c: seq<nat>, g: nat, y: int)
    requires Counts(b, c) && 1 <= g <= BMAX && c[g] > 0
    requires forall i :: 0 <= i < |b| ==> b[i] <= g
    requires y >= 0 ==> y == Pow2(g) - Base(c, g + 1, g)
    requires y < 0 ==> Base(c, g + 1, g) > Pow2(g)
    ensures forall i :: 0 <= i < |b| ==> b[i] <= BMAX
    ensures RightCode(b, if y < 0 then 2 else if y != 0 && g != 1 then 1 else 0)
    ensures exists i :: 0 <= i < |b| && b[i] != 0
  {
    hide Pow2, Base, CountLen, Kraft;
    KraftTotal(b, c, g);
    KraftOfNothing(b, BMAX);
    CountZero(b, g);
    var i :| 0 <= i < |b| && b[i] == g;
  }

  method HuftBuild(b: seq<nat>, al: Alphabet, m0: nat) returns (r: Built)
    requires 1 <= |b| <= N_MAX && forall i :: 0 <= i < |b| ==> b[i] <= BMAX
    requires GoodAlphabet(al) && m0 >= 1
    ensures RightCode(b, r.code)
    ensures r.tables == [] <==> r.code == 2 || forall i :: 0 <= i < |b| ==> b[i] == 0
    ensures r.m <= BMAX && (r.tables != [] ==> DecodeLike(r.tables, r.m, b, al, AsksOf(b, m0)) && r.m >= 1)
    ensures r.tables != [] && |b| <= 256 && (forall i :: 0 <= i < |b| ==> b[i] <= m0) ==> SingleLevel(r.tables, r.m)
  {
    hide Pow2, Offset, Base, CountLen, Kraft, Finished, WalksRight, RightCode, SingleLevel, Prepared, SortedValues, Clamped, AsksOf;
    var el := if |b| > 256 then b[256] else BMAX;
    var c := CountLengths(b);
    CountZero(b, 0);
    if c[0] == |b| {
      NothingRight(b);
      return Built(0, [], 0);
    }
    var lo, g := FindMinMax(b, c);
    var m := if m0 < lo then lo else m0;
    m := if m > g then g else m;
    var over, y := SpareCodes(c, lo, g);
    ReturnRight(b, c, g, if over then -1 else y);
    CountZero(b, g);
    if over {
      return Built(2, [], m);
    }
    var x := Offsets(c, g);
    var v := SortSymbols(b, c, x, g);
    var p := Plan(|b|, g, c[g := c[g] + y], v, el, m, al);
    FilledOut(b, c, y, p);
    LimitClamped(p, lo, m0);
    var tables, m', tr := BuildTables(p, lo);
    FinishedDecodes(p, b, m0, tables, tr);
    r := Built(if y != 0 && g != 1 then 1 else 0, tables, m');
  }

  lemma NothingRight(b: seq<nat>)
    requires forall i :: 0 <= i < |b| ==> b[i] == 0
    ensures RightCode(b, 0)
  {
    KraftOfNothing(b, BMAX);
  }

  lemma LimitClamped(p: Plan, lo: nat, m0: nat)
    requires 1 <= lo <= p.g < |p.c| && p.c[lo] > 0 && forall j :: 1 <= j < lo ==> p.c[j] == 0
    requires p.m == (var m := if m0 < lo then lo else m0; if m > p.g then p.g else m)
    ensures Clamped(SizingOf(p), m0)
  {
  }

  lemma FinishedDecodes(p: Plan, b: seq<nat>, m0: nat, tables: seq<seq<Huft>>, tr: Trail)
    requires Finished(p, tables, tr) && Prepared(b, p) && GoodAlphabet(p.al) && Clamped(SizingOf(p), m0)
    ensures tables != [] && 1 <= tr.bits[0] <= p.g
    ensures DecodeLike(tables, tr.bits[0], b, p.al, AsksOf(b, m0))
    ensures tr.bits[0] == p.g ==> SingleLevel(tables, p.g)
  {
    hide Pow2, Filled, WalksRight, Prepared, SingleLevel, Clamped, AsksOf, TableAt;
    forall s ensures WalksRight(tables, tr.bits[0], b, p.al, AsksOf(b, m0), s) {
      TablesDecode(p, b, m0, tables, tr, s);
    }
    if tr.bits[0] == p.g {
      RootIsLeafy(p, tables, tr);
    }
  }

  lemma {:induction false} KraftOfNothing(lens: seq<nat>, g: nat)
    requires forall s :: 0 <= s < |lens| ==> lens[s] <= g
    ensures Kraft(lens, g) == 0 <==> forall s :: 0 <= s < |lens| ==> lens[s] == 0
  {
    if lens != [] {
      var n := |lens| - 1;
      assert lens[n] <= g;
      KraftOfNothing(lens[..n], g);
      assert forall s :: 0 <= s < n ==> lens[..n][s] == lens[s];
    }
  }

  /** The Kraft sum in the unit the source works in. */
  lemma KraftTotal(b: seq<nat>, c: seq<nat>, g: nat)
    requires Counts(b, c) && 1 <= g <= BMAX && forall i :: 0 <= i < |b| ==> b[i] <= g
    ensures forall i :: 0 <= i < |b| ==> b[i] <= BMAX
    ensures Kraft(b, BMAX) > Pow2(BMAX) <==> Base(c, g + 1, g) > Pow2(g)
    ensures Kraft(b, BMAX) == Pow2(BMAX) <==> Base(c, g + 1, g) == Pow2(g)
  {
    hide Pow2, Kraft, Base;
    KraftIsBase(b, c, g);
    KraftScale(b, g, BMAX);
    Pow2Add(g, BMAX - g);
    CompareScaled(Base(c, g + 1, g), Pow2(g), Pow2(BMAX - g));
  }

  lemma CompareScaled(x: nat, y: nat, u: nat)
    requires u > 0
    ensures x > y <==> x * u > y * u
    ensures x == y <==> x * u == y * u
  {
    if x > y {
      MulLe(y + 1, x, u);
      Distribute(y, 1, u);
    } else if x < y {
      MulLe(x + 1, y, u);
      Distribute(x, 1, u);
    }
  }

  /** Dummy codes of the greatest length fill the code space. */
  lemma FilledOut(b: seq<nat>, c: seq<nat>, y: nat, p: Plan)
    requires Counts(b, c) && 1 <= p.g <= BMAX && p.n == |b| <= N_MAX
    requires (forall i :: 0 <= i < |b| ==> b[i] <= p.g) && c[p.g] > 0
    requires p.c == c[p.g := c[p.g] + y] && y == Pow2(p.g) - Base(c, p.g + 1, p.g)
    requires |p.v| == N_MAX && SortedValues(b, c, p.v)
    requires p.el == (if |b| > 256 then b[256] else BMAX)
    ensures Prepared(b, p) && PlanOk(p) && p.c[p.g] > 0
  {
    hide Pow2, Base, Offset, CountLen;
    BaseSame(p.c, c, p.g, p.g);
    BaseStep(p.c, p.g, p.g);
    BaseStep(c, p.g, p.g);
    PowZero();
    forall s | 0 <= s < |b| ensures Position(b, p.c, s) == Position(b, c, s) {
      OffsetSame(p.c, c, b[s]);
    }
  }

  lemma RootIsLeafy(p: Plan, tables: seq<seq<Huft>>, tr: Trail)
    requires Finished(p, tables, tr) && GoodAlphabet(p.al) && tr.bits[0] == p.g
    ensures SingleLevel(tables, p.g)
  {
    hide Val, Pow2, Offset, EntryFor, Start;
    forall j | 0 <= j < |tables[0]| ensures !IsLinkEntry(tables[0][j]) {
      ValBound(Path(tr, 0, j), p.g);
      assert CellDone(p, tr, Pow2(p.g), 0, j, tables[0][j]);
      if t': nat :| IsLink(tr, 0, j, tables[0][j], t') {
      } else {
        var k: nat, rank: nat :| IsLeaf(p, tr, Pow2(p.g), 0, j, tables[0][j], k, rank);
        EntryIsNoLink(p, Offset(p.c, k) + rank, k);
      }
    }
  }

  /** One table look-up always suffices. */
  ghost predicate SingleLevel(tables: seq<seq<Huft>>, m: nat) {
    |tables| > 0 && |tables[0]| == Pow2(m) && forall j :: 0 <= j < |tables[0]| ==> !IsLinkEntry(tables[0][j])
  }
}
