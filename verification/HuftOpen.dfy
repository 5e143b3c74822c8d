/** The second half of huft_build: making the linked tables. */
module HuftOpen {
  import opened Bits
  import opened Canonical
  import opened HuftPrepare
  import opened HuftSizes
  import opened HuftTables
  import opened HuftWalk

  /** The builder's variables: the tables, the stack of open tables `u` with
      their sizes in bits `l` and the patterns `x` that lead to them, and the
      bits `w` before the innermost one. */
  datatype Work = Work(tables: seq<seq<Huft>>, u: seq<nat>, l: seq<nat>, x: seq<nat>, w: nat) {
    /** Bits decided once the innermost table has been looked up. */
    function Reach(): nat { w + if l == [] then 0 else l[|l| - 1] }
  }

  // ---------------------------------------------------------------- invariant

  ghost predicate OnPath(s: Work, tr: Trail, code: seq<bool>, i: nat)
    requires |s.l| == |s.u| == |s.x| && i < |s.u| && |tr.paths| == |tr.bits|
  {
    && s.u[i] < |tr.paths|
    && s.l[i] == tr.bits[s.u[i]] && s.x[i] == Lsb(tr.paths[s.u[i]])
    && |tr.paths[s.u[i]]| < |code| && code[..|tr.paths[s.u[i]]|] == tr.paths[s.u[i]]
  }

  /** Table `t` has a link to table `t'`, one level deeper. */
  ghost predicate Joined(tables: seq<seq<Huft>>, tr: Trail, t: nat, t': nat)
    requires t < |tables| == |tr.paths| == |tr.bits| && t' < |tables|
  {
    && |tr.paths[t']| == |tr.paths[t]| + tr.bits[t]
    && tr.paths[t'][..|tr.paths[t]|] == tr.paths[t]
    && var j := Lsb(tr.paths[t'][|tr.paths[t]|..]);
       j < |tables[t]| && tables[t][j] == Huft(16 + tr.bits[t'], tr.bits[t], Table(t'))
  }

  ghost predicate Nested(tr: Trail, u: seq<nat>)
    requires |tr.paths| == |tr.bits| && forall i :: 0 <= i < |u| ==> u[i] < |tr.paths|
  {
    forall i, j :: 0 <= i < j < |u| ==> u[i] < u[j] && |tr.paths[u[i]]| + tr.bits[u[i]] <= |tr.paths[u[j]]|
  }

  ghost predicate Chained(tables: seq<seq<Huft>>, tr: Trail, u: seq<nat>)
    requires |tables| == |tr.paths| == |tr.bits| && forall i :: 0 <= i < |u| ==> u[i] < |tables|
  {
    forall i, j :: 0 <= i < j < |u| && j == i + 1 ==> Joined(tables, tr, u[i], u[j])
  }

  ghost predicate Stack(s: Work, tr: Trail, code: seq<bool>) {
    && |s.l| == |s.u| == |s.x| && |s.tables| == |tr.paths| == |tr.bits|
    && (forall i :: 0 <= i < |s.u| ==> s.u[i] < |s.tables|)
    && (forall i :: 0 <= i < |s.u| ==> OnPath(s, tr, code, i))
    && Nested(tr, s.u) && Chained(s.tables, tr, s.u)
    && (if s.u == [] then s.w == 0 && s.tables == []
        else s.u[0] == 0 && tr.paths[0] == [] && s.w == |tr.paths[s.u[|s.u| - 1]]|)
  }

  /** Every table not on the stack covers only codes before `cur`. */
  ghost predicate Retired(p: Plan, s: Work, tr: Trail, cur: nat)
    requires Shape(p, s.tables, tr)
  {
    forall t :: 0 <= t < |s.tables| && t !in s.u ==> Val(tr.paths[t], p.g) + Pow2(p.g - |tr.paths[t]|) <= cur
  }

  ghost predicate PlanOk(p: Plan) {
    SizingOk(SizingOf(p)) && p.n <= |p.v|
  }

  /** Holds before the table entries of `code`, whose interval starts at `cur`. */
  ghost predicate Inv(p: Plan, s: Work, tr: Trail, code: seq<bool>, cur: nat) {
    && PlanOk(p) && 1 <= |code| <= p.g && cur == Val(code, p.g)
    && Shape(p, s.tables, tr) && Filled(p, s.tables, tr, cur)
    && Stack(s, tr, code) && Retired(p, s, tr, cur)
    && (s.u == [] ==> cur == 0)
  }

  // ---------------------------------------------------------------- opening tables

  /** The innermost table, seen from the current code. */
  lemma Top(s: Work, tr: Trail, code: seq<bool>)
    requires Stack(s, tr, code) && s.u != []
    ensures var t := s.u[|s.u| - 1];
            && t < |tr.paths| && s.w == |tr.paths[t]| < |code| && code[..s.w] == tr.paths[t]
            && s.Reach() == s.w + tr.bits[t] && s.l[|s.u| - 1] == tr.bits[t]
  {
    assert OnPath(s, tr, code, |s.u| - 1);
  }

  lemma CellOnCode(s: Work, tr: Trail, code: seq<bool>) returns (j: nat)
    requires Stack(s, tr, code) && s.u != [] && s.Reach() <= |code|
    ensures j == Lsb(code[s.w..s.Reach()])
    ensures Path(tr, s.u[|s.u| - 1], j) == code[..s.Reach()]
    ensures j < Pow2(tr.bits[s.u[|s.u| - 1]])
  {
    Top(s, tr, code);
    var q := code[s.w..s.Reach()];
    j := Lsb(q);
    LsbBound(q);
    BitsOfLsb(q);
  }

  lemma NotOpen(s: Work, tr: Trail, code: seq<bool>, t: nat)
    requires Stack(s, tr, code) && t < |tr.paths| && |tr.paths[t]| > s.w
    ensures t !in s.u
  {
    forall i | 0 <= i < |s.u| ensures |tr.paths[s.u[i]]| <= s.w {
    }
  }

  lemma StartedLeaf(p: Plan, s: Work, tr: Trail, code: seq<bool>, cur: nat, t: nat, j: nat, r: Huft, k: nat, rank: nat)
    requires t < |tr.paths| == |tr.bits| && |tr.paths[t]| + tr.bits[t] <= |code| <= p.g < |p.c| && p.n <= |p.v|
    requires Path(tr, t, j) == code[..|tr.paths[t]| + tr.bits[t]] && IsLeaf(p, tr, cur, t, j, r, k, rank)
    ensures Val(code, p.g) < cur
  {
    assert Path(tr, t, j)[..k] == code[..k];
    ValPrefix(code, k, p.g);
  }

  /** A table is opened only where its interval starts. */
  lemma Aligned(p: Plan, s: Work, tr: Trail, code: seq<bool>, cur: nat)
    requires Inv(p, s, tr, code, cur) && s.Reach() < |code|
    ensures Val(code[..s.Reach()], p.g) == cur
  {
    hide Val, Pow2, Lsb, BitsOf, Path, Nested, Chained;
    var W := s.Reach();
    ValPrefix(code, W, p.g);
    if s.u != [] {
      var t := s.u[|s.u| - 1];
      Top(s, tr, code);
      var j := CellOnCode(s, tr, code);
      var r := s.tables[t][j];
      if CellDone(p, tr, cur, t, j, r) {
        if t': nat :| IsLink(tr, t, j, r, t') {
          NotOpen(s, tr, code, t');
        } else {
          var k: nat, rank: nat :| IsLeaf(p, tr, cur, t, j, r, k, rank);
          StartedLeaf(p, s, tr, code, cur, t, j, r, k, rank);
        }
      }
    }
  }

  /** The state after a `j`-bit table for the bits `code[..Reach]` is opened. */
  function Opened(s: Work, j: nat, slot: nat, pattern: nat): (r: Work)
    requires |s.l| == |s.u|
    requires s.u != [] ==> s.u[|s.u| - 1] < |s.tables| && slot < |s.tables[s.u[|s.u| - 1]]|
  {
    var t := |s.tables|;
    var blank := seq(Pow2(j), _ => Huft(0, 0, Undefined));
    var linked :=
      if s.u == [] then s.tables
      else
        var h := |s.u| - 1;
        s.tables[s.u[h] := s.tables[s.u[h]][slot := Huft(16 + j, s.l[h], Table(t))]];
    Work(linked + [blank], s.u + [t], s.l + [j], s.x + [pattern], s.Reach())
  }

  ghost function Longer(tr: Trail, path: seq<bool>, j: nat): Trail {
    Trail(tr.paths + [path], tr.bits + [j])
  }

  lemma CellKept(p: Plan, tr: Trail, tr': Trail, cur: nat, cur': nat, t: nat, j: nat, r: Huft)
    requires t < |tr.paths| == |tr.bits| && |tr.paths[t]| + tr.bits[t] <= p.g < |p.c| && p.n <= |p.v|
    requires tr.paths <= tr'.paths && tr.bits <= tr'.bits && |tr'.paths| == |tr'.bits| && cur <= cur'
    requires CellDone(p, tr, cur, t, j, r)
    ensures CellDone(p, tr', cur', t, j, r)
  {
    assert Path(tr', t, j) == Path(tr, t, j);
    if t': nat :| IsLink(tr, t, j, r, t') {
      assert IsLink(tr', t, j, r, t');
    } else {
      var k: nat, rank: nat :| IsLeaf(p, tr, cur, t, j, r, k, rank);
      assert IsLeaf(p, tr', cur', t, j, r, k, rank);
    }
  }

  lemma OpenedCells(s: Work, j: nat, slot: nat, pattern: nat)
    requires |s.l| == |s.u|
    requires s.u != [] ==> s.u[|s.u| - 1] < |s.tables| && slot < |s.tables[s.u[|s.u| - 1]]|
    ensures var s' := Opened(s, j, slot, pattern);
            && |s'.tables| == |s.tables| + 1 && |s'.tables[|s.tables|]| == Pow2(j)
            && (forall t :: 0 <= t < |s.tables| ==> |s'.tables[t]| == |s.tables[t]|)
            && (forall t, i :: 0 <= t < |s.tables| && 0 <= i < |s.tables[t]| && !(s.u != [] && t == s.u[|s.u| - 1] && i == slot) ==>
                  s'.tables[t][i] == s.tables[t][i])
  {
  }

  lemma OpenedFilled(p: Plan, s: Work, tr: Trail, code: seq<bool>, cur: nat, j: nat, slot: nat, pattern: nat)
    requires Inv(p, s, tr, code, cur) && s.Reach() < |code|
    requires 1 <= j && s.Reach() + j <= p.g && TableAt(SizingOf(p), code[..s.Reach()], j)
    requires s.u != [] ==> slot < |s.tables[s.u[|s.u| - 1]]| && Path(tr, s.u[|s.u| - 1], slot) == code[..s.Reach()]
    ensures var s', tr' := Opened(s, j, slot, pattern), Longer(tr, code[..s.Reach()], j);
            Shape(p, s'.tables, tr') && Filled(p, s'.tables, tr', cur)
  {
    hide TableAt;
    Aligned(p, s, tr, code, cur);
    if s.u != [] {
      Top(s, tr, code);
    }
    OpenedCells(s, j, slot, pattern);
    var path := code[..s.Reach()];
    var s', tr' := Opened(s, j, slot, pattern), Longer(tr, path, j);
    forall t, i | 0 <= t < |s'.tables| && 0 <= i < |s'.tables[t]| && Val(Path(tr', t, i), p.g) < cur
      ensures CellDone(p, tr', cur, t, i, s'.tables[t][i])
    {
      OpenedCellDone(p, s, tr, s'.tables, path, cur, j, slot, t, i);
    }
  }

  lemma OpenedCellDone(p: Plan, s: Work, tr: Trail, tables: seq<seq<Huft>>, path: seq<bool>, cur: nat, j: nat, slot: nat, t: nat, i: nat)
    requires Shape(p, s.tables, tr) && p.g < |p.c| && p.n <= |p.v| && Filled(p, s.tables, tr, cur)
    requires |path| + j <= p.g && Val(path, p.g) == cur
    requires t < |tables| == |s.tables| + 1 && i < |tables[t]|
    requires t < |s.tables| ==> |tables[t]| == |s.tables[t]|
    requires t < |s.tables| && tables[t][i] != s.tables[t][i] ==> Path(tr, t, i) == path
    requires Val(Path(Longer(tr, path, j), t, i), p.g) < cur
    ensures CellDone(p, Longer(tr, path, j), cur, t, i, tables[t][i])
  {
    var tr' := Longer(tr, path, j);
    var q := Path(tr', t, i);
    if t == |s.tables| {
      assert q[..|path|] == path;
      ValPrefix(q, |path|, p.g);
    } else {
      assert q == Path(tr, t, i);
      CellKept(p, tr, tr', cur, cur, t, i, s.tables[t][i]);
    }
  }

  lemma OpenedStack(p: Plan, s: Work, tr: Trail, code: seq<bool>, j: nat, slot: nat)
    requires Shape(p, s.tables, tr) && Stack(s, tr, code) && s.Reach() < |code|
    requires 1 <= j
    requires s.u != [] ==> slot == Lsb(code[s.w..s.Reach()]) && slot < |s.tables[s.u[|s.u| - 1]]|
    ensures Stack(Opened(s, j, slot, Lsb(code[..s.Reach()])), Longer(tr, code[..s.Reach()], j), code)
  {
    var path := code[..s.Reach()];
    var s', tr' := Opened(s, j, slot, Lsb(path)), Longer(tr, path, j);
    OpenedCells(s, j, slot, Lsb(path));
    forall i | 0 <= i < |s'.u| ensures s'.u[i] < |s'.tables| && OnPath(s', tr', code, i) {
      OpenedOnPath(s, tr, code, s', path, j, i);
    }
    OpenedOrder(p, s, tr, code, j);
    OpenedChain(p, s, tr, code, j, slot);
  }

  lemma OpenedChain(p: Plan, s: Work, tr: Trail, code: seq<bool>, j: nat, slot: nat)
    requires Shape(p, s.tables, tr) && Stack(s, tr, code) && s.Reach() < |code|
    requires s.u != [] ==> slot == Lsb(code[s.w..s.Reach()]) && slot < |s.tables[s.u[|s.u| - 1]]|
    ensures var s', tr' := Opened(s, j, slot, Lsb(code[..s.Reach()])), Longer(tr, code[..s.Reach()], j);
            && |s'.tables| == |tr'.paths| && (forall i :: 0 <= i < |s'.u| ==> s'.u[i] < |s'.tables|)
            && Chained(s'.tables, tr', s'.u)
  {
    var s', tr' := Opened(s, j, slot, Lsb(code[..s.Reach()])), Longer(tr, code[..s.Reach()], j);
    OpenedCells(s, j, slot, Lsb(code[..s.Reach()]));
    forall i, n | 0 <= i < n < |s'.u| && n == i + 1 ensures Joined(s'.tables, tr', s'.u[i], s'.u[n]) {
      OpenedJoined(p, s, tr, code, j, slot, i);
    }
  }

  lemma OpenedOnPath(s: Work, tr: Trail, code: seq<bool>, s': Work, path: seq<bool>, j: nat, i: nat)
    requires Stack(s, tr, code) && |path| < |code| && path == code[..|path|]
    requires s'.u == s.u + [|s.tables|] && s'.l == s.l + [j] && s'.x == s.x + [Lsb(path)]
    requires i <= |s.u|
    ensures s'.u[i] <= |s.tables| && OnPath(s', Longer(tr, path, j), code, i)
  {
    if i < |s.u| {
      assert OnPath(s, tr, code, i);
    }
  }

  lemma OpenedOrder(p: Plan, s: Work, tr: Trail, code: seq<bool>, j: nat)
    requires Shape(p, s.tables, tr) && Stack(s, tr, code) && s.Reach() < |code|
    ensures Nested(Longer(tr, code[..s.Reach()], j), s.u + [|s.tables|])
  {
    if s.u != [] {
      Top(s, tr, code);
    }
    forall i | 0 <= i < |s.u| ensures |tr.paths[s.u[i]]| + tr.bits[s.u[i]] <= s.Reach() {
      assert i == |s.u| - 1 || |tr.paths[s.u[i]]| + tr.bits[s.u[i]] <= s.w;
    }
  }

  lemma OpenedJoined(p: Plan, s: Work, tr: Trail, code: seq<bool>, j: nat, slot: nat, i: nat)
    requires Shape(p, s.tables, tr) && Stack(s, tr, code) && s.Reach() < |code| && i < |s.u|
    requires slot == Lsb(code[s.w..s.Reach()]) && slot < |s.tables[s.u[|s.u| - 1]]|
    ensures var s', tr' := Opened(s, j, slot, Lsb(code[..s.Reach()])), Longer(tr, code[..s.Reach()], j);
            s'.u[i] < |s'.tables| && s'.u[i + 1] < |s'.tables| == |tr'.paths| && Joined(s'.tables, tr', s'.u[i], s'.u[i + 1])
  {
    OpenedCells(s, j, slot, Lsb(code[..s.Reach()]));
    Top(s, tr, code);
    if i + 1 < |s.u| {
      assert Joined(s.tables, tr, s.u[i], s.u[i + 1]);
    } else {
      assert code[..s.Reach()][s.w..] == code[s.w..s.Reach()];
      assert code[..s.Reach()][..s.w] == code[..s.w];
    }
  }

  lemma OpenedInv(p: Plan, s: Work, tr: Trail, code: seq<bool>, cur: nat, j: nat, slot: nat)
    requires Inv(p, s, tr, code, cur) && s.Reach() < |code|
    requires 1 <= j && s.Reach() + j <= p.g && TableAt(SizingOf(p), code[..s.Reach()], j)
    requires s.u != [] ==> slot == Lsb(code[s.w..s.Reach()])
    ensures s.u != [] ==> slot < |s.tables[s.u[|s.u| - 1]]|
    ensures Inv(p, Opened(s, j, slot, Lsb(code[..s.Reach()])), Longer(tr, code[..s.Reach()], j), code, cur)
  {
    if s.u != [] {
      var i := CellOnCode(s, tr, code);
    }
    OpenedFilled(p, s, tr, code, cur, j, slot, Lsb(code[..s.Reach()]));
    OpenedStack(p, s, tr, code, j, slot);
    OpenedRetired(p, s, tr, code, cur, j, slot, Lsb(code[..s.Reach()]));
  }

  lemma OpenedRetired(p: Plan, s: Work, tr: Trail, code: seq<bool>, cur: nat, j: nat, slot: nat, pattern: nat)
    requires Inv(p, s, tr, code, cur) && s.Reach() < |code|
    requires s.u != [] ==> slot < |s.tables[s.u[|s.u| - 1]]|
    requires Shape(p, Opened(s, j, slot, pattern).tables, Longer(tr, code[..s.Reach()], j))
    ensures Retired(p, Opened(s, j, slot, pattern), Longer(tr, code[..s.Reach()], j), cur)
  {
    hide TableAt, Filled, Nested, Chained, OnPath, Val, Pow2, SizingOk, Lsb;
    var s' := Opened(s, j, slot, pattern);
    assert s'.u == s.u + [|s.tables|];
  }

  /** `f` patterns are left for codes of length `j` and more, at scale `j - 1`. */
  ghost predicate Left(p: Plan, j: nat, f: nat)
    requires PlanOk(p) && 1 <= j <= p.g + 1
  {
    f * Pow2(p.g + 1 - j) == Pow2(p.g) - Base(p.c, j, p.g)
  }

  /** The very first table, with room for every code. */
  ghost predicate WholeCode(p: Plan, k: nat, a: nat, w: nat)
    requires PlanOk(p) && k <= p.g
  {
    w == 0 && p.m >= p.g && p.el >= p.g && a + 1 == p.c[k] && Base(p.c, k, p.g) == 0 && p.c[p.g] > 0
  }

  /** Size in bits of the next table (lines 529-547). */
  method ChooseBits(p: Plan, k: nat, a: nat, w: nat) returns (j: nat)
    requires PlanOk(p) && w < k <= p.g
    requires k == p.g ==> a + 1 >= Pow2(p.g - w)
    ensures 1 <= j <= p.g - w
    ensures SizeChosen(SizingOf(p), k, a, w, j)
    ensures WholeCode(p, k, a, w) ==> j == p.g
  {
    hide Left, Base, TakenUp;
    TakenFirst(SizingOf(p), k, a);
    var z := p.g - w;
    if z > p.m {
      z := p.m;
    }
    j := k - w;
    var f := Pow2(j);
    if WholeCode(p, k, a, w) {
      FirstLevel(p, k, Pow2(k));
    }
    hide Pow2;
    if f > a + 1 {
      j := TryLarger(p, k, a, f - (a + 1), w, z, WholeCode(p, k, a, w));
    }
    ghost var n := j;
    assert SmallestFilled(SizingOf(p), k, a, w, Limit(SizingOf(p), w), n);
    if w + j > p.el && w < p.el {
      j := p.el - w;
    }
    assert j == CutAt(p.el, w, n);
  }

  /** Grows the table while the codes of the next length do not fill it. */
  method TryLarger(p: Plan, k: nat, ghost a: nat, f0: nat, w: nat, z: nat, ghost whole: bool) returns (j: nat)
    requires PlanOk(p) && w < k < p.g && z <= p.g - w
    requires f0 == Pow2(k - w) - TakenUp(SizingOf(p), k, a, k) > 0
    requires whole ==> w == 0 && z == p.g && p.c[p.g] > 0 && Left(p, k + 1, f0)
    ensures 1 <= j <= p.g - w
    ensures SmallestFilled(SizingOf(p), k, a, w, z, j)
    ensures whole ==> j == p.g
  {
    hide TakenUp, Left, Base, Fills, Pow2;
    ghost var y := SizingOf(p);
    RoomFirst(y, k, a, w);
    var f := f0;
    j := k - w + 1;
    while j < z
      invariant k - w + 1 <= j <= p.g - w
      invariant whole ==> Left(p, j, f)
      invariant f == Pow2(j - 1) - TakenUp(y, k, a, w + j - 1)
      invariant forall i :: k - w <= i < j ==> !Fills(y, k, a, w, i)
      invariant j <= k - w + 1 || j <= z
    {
      RoomNext(y, k, a, w, j, f);
      if whole {
        Deduct(p, j, f);
      }
      f := 2 * f;
      if f <= p.c[w + j] {
        break;
      }
      f := f - p.c[w + j];
      j := j + 1;
    }
  }

  lemma FirstLevel(p: Plan, k: nat, f: nat)
    requires PlanOk(p) && 1 <= k <= p.g && Base(p.c, k, p.g) == 0 && f == Pow2(k) && p.c[p.g] > 0
    ensures f > p.c[k] ==> Left(p, k + 1, f - p.c[k])
    ensures f <= p.c[k] ==> k == p.g
  {
    hide Pow2, Base;
    Pow2Add(k, p.g - k);
    BaseStep(p.c, k, p.g);
    if f <= p.c[k] {
      MulLe(f, p.c[k], Pow2(p.g - k));
      FullAt(p, k);
    } else {
      DistributeMinus(f, p.c[k], Pow2(p.g - k));
    }
  }

  /** If the codes up to length `k` fill the space there are no longer ones. */
  lemma FullAt(p: Plan, k: nat)
    requires PlanOk(p) && 1 <= k <= p.g && Base(p.c, k + 1, p.g) >= Pow2(p.g) && p.c[p.g] > 0
    ensures k == p.g
  {
    if k < p.g {
      BaseMonotone(p.c, k + 1, p.g, p.g);
      assert Base(p.c, p.g + 1, p.g) == Base(p.c, p.g, p.g) + p.c[p.g] * Pow2(0);
    }
  }

  lemma Deduct(p: Plan, j: nat, f: nat)
    requires PlanOk(p) && 1 <= j < p.g && p.c[p.g] > 0
    requires Left(p, j, f)
    ensures 2 * f > p.c[j]
    ensures Left(p, j + 1, 2 * f - p.c[j])
  {
    Associate(f, 2, Pow2(p.g - j));
    DistributeMinus(2 * f, p.c[j], Pow2(p.g - j));
    if 2 * f <= p.c[j] {
      MulLe(2 * f, p.c[j], Pow2(p.g - j));
      FullAt(p, j);
    }
  }
}
