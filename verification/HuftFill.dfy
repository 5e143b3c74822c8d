/** Inside the loop of huft_build over the codes: opening the tables of a code,
    writing its entries, and going on to the next code. */
module HuftFill {
  import opened Bits
  import opened Canonical
  import opened HuftPrepare
  import opened HuftSizes
  import opened HuftTables
  import opened HuftWalk
  import opened HuftOpen

  // ---------------------------------------------------------------- opening tables

  ghost predicate RootBits(tr: Trail, n: nat) { |tr.bits| > 0 && tr.bits[0] == n }

  /** `code` is the next to be placed: the one before the last `a` of `k` bits. */
  ghost predicate NextCode(p: Plan, k: nat, a: nat, cur: nat)
    requires PlanOk(p)
  {
    1 <= k <= p.g && a < p.c[k] && cur == Start(p.c, k, p.c[k] - a - 1, p.g)
  }

  /** Opens tables until one decides all bits of `code` (lines 522-576). The
      pattern saved for backing up is the whole reversed code `i`. */
  method MakeTables(p: Plan, s0: Work, k: nat, a: nat, i: nat, ghost tr0: Trail, ghost code: seq<bool>, ghost cur: nat)
    returns (s: Work, ghost tr: Trail)
    requires Inv(p, s0, tr0, code, cur) && |code| == k && i == Lsb(code) && NextCode(p, k, a, cur)
    requires k == p.g ==> cur + a + 1 == Pow2(p.g)
    ensures Inv(p, s, tr, code, cur) && k <= s.Reach() && s.u != []
    ensures s0.u != [] ==> forall n :: RootBits(tr0, n) ==> RootBits(tr, n)
    ensures s0.u == [] && WholeCode(p, k, a, 0) ==> RootBits(tr, p.g)
  {
    hide Inv, RootBits, Lsb, Pow2, NextCode;
    s, tr := s0, tr0;
    NothingDecided(p, s, tr, code, cur);
    while k > s.Reach()
      invariant Inv(p, s, tr, code, cur)
      invariant s0.u != [] ==> s.u != [] && forall n :: RootBits(tr0, n) ==> RootBits(tr, n)
      invariant s0.u == [] && s.u != [] && WholeCode(p, k, a, 0) ==> RootBits(tr, p.g)
      invariant s.u == [] ==> s.Reach() == 0
      decreases p.g - s.Reach()
    {
      s, tr := MakeTable(p, s, k, a, i, tr, code, cur);
    }
  }

  lemma NothingDecided(p: Plan, s: Work, tr: Trail, code: seq<bool>, cur: nat)
    requires Inv(p, s, tr, code, cur)
    ensures PlanOk(p) && 1 <= |code| <= p.g && (s.u == [] ==> s.Reach() == 0)
  {
  }

  /** Opens one table, at the bits of `code` that the tables so far decide. */
  method MakeTable(p: Plan, s0: Work, k: nat, a: nat, i: nat, ghost tr0: Trail, ghost code: seq<bool>, ghost cur: nat)
    returns (s: Work, ghost tr: Trail)
    requires Inv(p, s0, tr0, code, cur) && |code| == k && i == Lsb(code) && s0.Reach() < k && NextCode(p, k, a, cur)
    requires k == p.g ==> cur + a + 1 == Pow2(p.g)
    ensures Inv(p, s, tr, code, cur) && s.u != [] && s0.Reach() < s.Reach() <= p.g
    ensures SizeChosen(SizingOf(p), k, a, s0.Reach(), s.Reach() - s0.Reach())
    ensures tr == Longer(tr0, code[..s0.Reach()], s.Reach() - s0.Reach())
    ensures s0.u != [] ==> forall n :: RootBits(tr0, n) ==> RootBits(tr, n)
    ensures s0.u == [] && WholeCode(p, k, a, 0) ==> RootBits(tr, p.g)
  {
    hide SizeChosen, Pow2, Lsb, Filled, Retired, Chained, Nested, OnPath, Shape, Val, TableAt, Start;
    var w := s0.Reach();
    Aligned(p, s0, tr0, code, cur);
    if k == p.g {
      ValBound(code[..w], p.g);
    }
    var j := ChooseBits(p, k, a, w);
    OpensHere(p, k, a, code[..w], cur, j);
    var slot := 0;
    if s0.u != [] {
      SlotOfCode(s0, tr0, code);
      slot := (i % Pow2(w)) / Pow2(w - s0.l[|s0.l| - 1]);
    }
    ZeroTail(code, w, p.g);
    OpenedInv(p, s0, tr0, code, cur, j, slot);
    s := Opened(s0, j, slot, i);
    tr := Longer(tr0, code[..w], j);
  }

  lemma OpensHere(p: Plan, k: nat, a: nat, path: seq<bool>, cur: nat, j: nat)
    requires PlanOk(p) && NextCode(p, k, a, cur) && |path| < k && Val(path, p.g) == cur
    requires SizeChosen(SizingOf(p), k, a, |path|, j)
    ensures TableAt(SizingOf(p), path, j)
  {
    hide SizeChosen, Val, Start, Pow2;
    assert OpensAt(SizingOf(p), path, k, p.c[k] - a - 1, j);
  }

  lemma SlotOfCode(s: Work, tr: Trail, code: seq<bool>)
    requires Stack(s, tr, code) && s.u != [] && s.Reach() <= |code|
    ensures s.w == s.Reach() - s.l[|s.l| - 1]
    ensures Lsb(code) % Pow2(s.Reach()) / Pow2(s.w) == Lsb(code[s.w..s.Reach()])
  {
    Top(s, tr, code);
    LsbSplit(code, s.Reach());
    LsbSplit(code[..s.Reach()], s.w);
    assert code[..s.Reach()][s.w..] == code[s.w..s.Reach()];
  }

  /** Where the interval starts, the remaining bits of the code are zero. */
  lemma ZeroTail(code: seq<bool>, w: nat, g: nat)
    requires w <= |code| <= g && Val(code[..w], g) == Val(code, g)
    ensures Lsb(code) == Lsb(code[..w])
  {
    var z := code[..w] + seq(|code| - w, _ => false);
    ValZeros(code[..w], |code| - w, g);
    if z != code {
      ValDisjoint(z, code, g);
    }
    LsbZeros(code[..w], |code| - w);
  }

  lemma {:induction false} ValZeros(s: seq<bool>, n: nat, g: nat)
    requires |s| + n <= g
    ensures Val(s + seq(n, _ => false), g) == Val(s, g)
  {
    if n == 0 {
      assert s + seq(n, _ => false) == s;
    } else {
      var t := s + seq(n - 1, _ => false);
      ValZeros(s, n - 1, g);
      assert s + seq(n, _ => false) == t + [false];
      ValExtend(t, g);
    }
  }

  lemma LsbOfZeros(n: nat)
    ensures Lsb(seq(n, _ => false)) == 0
  {
    if n > 0 {
      LsbOfZeros(n - 1);
      assert seq(n, _ => false)[1..] == seq(n - 1, _ => false);
    }
  }

  lemma LsbZeros(s: seq<bool>, n: nat)
    ensures Lsb(s + seq(n, _ => false)) == Lsb(s)
  {
    LsbAppend(s, seq(n, _ => false));
    LsbOfZeros(n);
  }

  // ---------------------------------------------------------------- filling entries

  /** Every `f`-th entry from `i0` on becomes `r` (lines 596-597). */
  method FillEvery(q0: seq<Huft>, i0: nat, f: nat, r: Huft) returns (q: seq<Huft>)
    requires i0 < f
    ensures |q| == |q0| && forall j :: 0 <= j < |q0| ==> q[j] == if j % f == i0 then r else q0[j]
  {
    q := q0;
    var j := i0;
    assert j % f == i0;
    while j < |q0|
      invariant |q| == |q0| && j % f == i0
      invariant forall n :: 0 <= n < |q0| ==> q[n] == if n < j && n % f == i0 then r else q0[n]
      decreases |q0| - j
    {
      q := q[j := r];
      NextMultiple(j, f, i0);
      j := j + f;
    }
  }

  lemma NextMultiple(j: nat, f: nat, i0: nat)
    requires f > 0 && j % f == i0
    ensures (j + f) % f == i0
    ensures forall n :: j < n < j + f ==> n % f != i0
  {
    var q := j / f;
    assert j == i0 + f * q;
    assert f * (q + 1) == f * q + f;
    DivMod(i0, q + 1, f);
    forall n | j < n < j + f ensures n % f != i0 {
      BetweenMultiples(n, q, f, i0);
    }
  }

  lemma BetweenMultiples(n: nat, q: nat, f: nat, i0: nat)
    requires f > 0 && i0 < f && i0 + f * q < n < i0 + f * q + f
    ensures n % f != i0
  {
    assert f * (q + 1) == f * q + f;
    var r := n - f * q;
    if r < f {
      DivMod(r, q, f);
    } else {
      DivMod(r - f, q + 1, f);
    }
  }

  /** The entries filled are those whose bits begin with the code. */
  lemma FilledCells(path: seq<bool>, bits: nat, code: seq<bool>, j: nat)
    requires |path| < |code| <= |path| + bits && code[..|path|] == path && j < Pow2(bits)
    ensures j % Pow2(|code| - |path|) == Lsb(code[|path|..]) <==> (path + BitsOf(j, bits))[..|code|] == code
  {
    var q, n := BitsOf(j, bits), |code| - |path|;
    LsbBitsOf(j, bits);
    LsbSplit(q, n);
    SamePrefix(path, q, code);
    if Lsb(q[..n]) == Lsb(code[|path|..]) {
      LsbInjective(q[..n], code[|path|..]);
    }
  }

  lemma SamePrefix(path: seq<bool>, q: seq<bool>, code: seq<bool>)
    requires |path| < |code| <= |path| + |q| && code[..|path|] == path
    ensures (path + q)[..|code|] == code <==> q[..|code| - |path|] == code[|path|..]
  {
    assert (path + q)[..|code|] == path + q[..|code| - |path|];
    assert code == path + code[|path|..];
    assert (path + q[..|code| - |path|])[|path|..] == q[..|code| - |path|];
  }

  ghost predicate FilledWith(s: Work, tables: seq<seq<Huft>>, f: nat, i0: nat, r: Huft)
    requires s.u != [] && s.u[|s.u| - 1] < |s.tables| && f > 0
  {
    var t := s.u[|s.u| - 1];
    && |tables| == |s.tables| && |tables[t]| == |s.tables[t]|
    && (forall n :: 0 <= n < |tables| && n != t ==> tables[n] == s.tables[n])
    && (forall j :: 0 <= j < |tables[t]| ==> tables[t][j] == if j % f == i0 then r else s.tables[t][j])
  }

  /** Writing the entries of `code` completes the cells of its interval. */
  lemma FilledCell(p: Plan, s: Work, tr: Trail, code: seq<bool>, cur: nat, rank: nat, tables: seq<seq<Huft>>, r: Huft, t: nat, j: nat)
    requires Inv(p, s, tr, code, cur) && s.u != [] && s.w < |code| <= s.Reach()
    requires rank < p.c[|code|] && cur == Start(p.c, |code|, rank, p.g)
    requires r == EntryFor(p, Offset(p.c, |code|) + rank, |code| - s.w)
    requires FilledWith(s, tables, Pow2(|code| - s.w), Lsb(code[s.w..]), r)
    requires t < |tables| && j < |tables[t]|
    requires Val(Path(tr, t, j), p.g) < cur + Pow2(p.g - |code|)
    ensures CellDone(p, tr, cur + Pow2(p.g - |code|), t, j, tables[t][j])
  {
    hide Val, Pow2, Lsb, BitsOf;
    var top := s.u[|s.u| - 1];
    Top(s, tr, code);
    if t == top {
      if cur <= Val(Path(tr, t, j), p.g) {
        TouchedCell(p, tr, t, j, code, cur, rank, tables[t][j], r, s.tables[t][j]);
      } else {
        UntouchedCell(p, tr, t, j, code);
        KeptCell(p, s.tables, tr, cur, cur + Pow2(p.g - |code|), t, j);
      }
    } else {
      OtherTable(p, s, tr, code, cur, t, j);
    }
  }

  lemma KeptCell(p: Plan, tables: seq<seq<Huft>>, tr: Trail, cur: nat, cur': nat, t: nat, j: nat)
    requires Shape(p, tables, tr) && p.g < |p.c| && p.n <= |p.v| && Filled(p, tables, tr, cur)
    requires t < |tables| && j < |tables[t]| && Val(Path(tr, t, j), p.g) < cur <= cur'
    ensures CellDone(p, tr, cur', t, j, tables[t][j])
  {
    CellKept(p, tr, tr, cur, cur', t, j, tables[t][j]);
  }

  lemma OtherTable(p: Plan, s: Work, tr: Trail, code: seq<bool>, cur: nat, t: nat, j: nat)
    requires Inv(p, s, tr, code, cur) && s.u != [] && t < |s.tables| && j < |s.tables[t]| && t != s.u[|s.u| - 1]
    requires Val(Path(tr, t, j), p.g) < cur + Pow2(p.g - |code|)
    ensures CellDone(p, tr, cur + Pow2(p.g - |code|), t, j, s.tables[t][j])
  {
    hide Val, Pow2, Lsb, BitsOf, TableAt, Nested, Chained, OnPath;
    if Val(Path(tr, t, j), p.g) < cur {
      KeptCell(p, s.tables, tr, cur, cur + Pow2(p.g - |code|), t, j);
    } else {
      OuterCell(p, s, tr, code, cur, t, j);
      CellKept(p, tr, tr, cur, cur + Pow2(p.g - |code|), t, j, s.tables[t][j]);
    }
  }

  lemma TouchedCell(p: Plan, tr: Trail, t: nat, j: nat, code: seq<bool>, cur: nat, rank: nat, now: Huft, r: Huft, was: Huft)
    requires t < |tr.paths| == |tr.bits| && |tr.paths[t]| < |code| <= |tr.paths[t]| + tr.bits[t] <= p.g < |p.c| && p.n <= |p.v|
    requires code[..|tr.paths[t]|] == tr.paths[t] && j < Pow2(tr.bits[t])
    requires cur == Val(code, p.g) <= Val(Path(tr, t, j), p.g) < cur + Pow2(p.g - |code|)
    requires rank < p.c[|code|] && cur == Start(p.c, |code|, rank, p.g)
    requires r == EntryFor(p, Offset(p.c, |code|) + rank, |code| - |tr.paths[t]|)
    requires now == if j % Pow2(|code| - |tr.paths[t]|) == Lsb(code[|tr.paths[t]|..]) then r else was
    ensures CellDone(p, tr, cur + Pow2(p.g - |code|), t, j, now)
  {
    ValOverlap(code, Path(tr, t, j), p.g);
    FilledCells(tr.paths[t], tr.bits[t], code, j);
    assert IsLeaf(p, tr, cur + Pow2(p.g - |code|), t, j, now, |code|, rank);
  }

  lemma UntouchedCell(p: Plan, tr: Trail, t: nat, j: nat, code: seq<bool>)
    requires t < |tr.paths| == |tr.bits| && |tr.paths[t]| < |code| <= |tr.paths[t]| + tr.bits[t] <= p.g
    requires code[..|tr.paths[t]|] == tr.paths[t] && j < Pow2(tr.bits[t])
    requires Val(Path(tr, t, j), p.g) < Val(code, p.g)
    ensures j % Pow2(|code| - |tr.paths[t]|) != Lsb(code[|tr.paths[t]|..])
  {
    FilledCells(tr.paths[t], tr.bits[t], code, j);
    var q := Path(tr, t, j);
    if q[..|code|] == code {
      ValPrefix(q, |code|, p.g);
    }
  }

  /** In an outer table, the cell whose interval meets the code's is the link. */
  lemma OuterCell(p: Plan, s: Work, tr: Trail, code: seq<bool>, cur: nat, t: nat, j: nat)
    requires Inv(p, s, tr, code, cur) && s.u != [] && t < |s.tables| && j < |s.tables[t]| && t != s.u[|s.u| - 1]
    requires cur <= Val(Path(tr, t, j), p.g) < cur + Pow2(p.g - |code|)
    ensures CellDone(p, tr, cur, t, j, s.tables[t][j])
  {
    hide Val, Pow2, Lsb, BitsOf, Path, Joined, IsLeaf, IsLink, OnPath, Nested, Chained, Filled;
    if t in s.u {
      OuterLinkOf(p, s, tr, code, cur, t, j);
    } else {
      RetiredCell(p, tr, cur, t, j);
    }
  }

  lemma OuterLinkOf(p: Plan, s: Work, tr: Trail, code: seq<bool>, cur: nat, t: nat, j: nat)
    requires Inv(p, s, tr, code, cur) && s.u != [] && t < |s.tables| && j < |s.tables[t]| && t != s.u[|s.u| - 1]
    requires t in s.u
    requires cur <= Val(Path(tr, t, j), p.g) < cur + Pow2(p.g - |code|)
    ensures CellDone(p, tr, cur, t, j, s.tables[t][j])
  {
    hide Val, Pow2, Lsb, BitsOf, Path, Joined, IsLeaf, IsLink, OnPath, Nested, Chained, Filled, Retired;
    var i :| 0 <= i < |s.u| && s.u[i] == t;
    OuterTable(s, tr, code, i);
    OuterLink(s.tables, tr, t, s.u[i + 1], j, code, p.g);
    assert IsLink(tr, t, j, s.tables[t][j], s.u[i + 1]);
  }

  lemma RetiredCell(p: Plan, tr: Trail, cur: nat, t: nat, j: nat)
    requires t < |tr.paths| == |tr.bits| && |tr.paths[t]| + tr.bits[t] <= p.g
    requires Val(tr.paths[t], p.g) + Pow2(p.g - |tr.paths[t]|) <= cur
    ensures Val(Path(tr, t, j), p.g) < cur
  {
    var q := Path(tr, t, j);
    assert q[..|tr.paths[t]|] == tr.paths[t];
    ValPrefix(q, |tr.paths[t]|, p.g);
  }

  lemma OuterTable(s: Work, tr: Trail, code: seq<bool>, i: nat)
    requires Stack(s, tr, code) && i + 1 < |s.u|
    ensures s.u[i] < s.u[i + 1] < |s.tables| == |tr.paths| && Joined(s.tables, tr, s.u[i], s.u[i + 1])
    ensures |tr.paths[s.u[i + 1]]| <= |code| && tr.paths[s.u[i + 1]] == code[..|tr.paths[s.u[i + 1]]|]
  {
    hide Lsb, Joined;
    assert OnPath(s, tr, code, i + 1);
  }

  lemma OuterLink(tables: seq<seq<Huft>>, tr: Trail, t: nat, t': nat, j: nat, code: seq<bool>, g: nat)
    requires t < t' < |tables| == |tr.paths| == |tr.bits| && Joined(tables, tr, t, t')
    requires j < |tables[t]| == Pow2(tr.bits[t])
    requires |tr.paths[t']| <= |code| <= g && tr.paths[t'] == code[..|tr.paths[t']|]
    requires |tr.paths[t]| + tr.bits[t] <= g
    requires Val(code, g) <= Val(Path(tr, t, j), g) < Val(code, g) + Pow2(g - |code|)
    ensures IsLink(tr, t, j, tables[t][j], t')
  {
    hide Val, Pow2, Lsb, BitsOf;
    ValMeets(Path(tr, t, j), code, g);
    JoinedLink(tables, tr, t, t', j);
  }

  lemma JoinedLink(tables: seq<seq<Huft>>, tr: Trail, t: nat, t': nat, j: nat)
    requires t < t' < |tables| == |tr.paths| == |tr.bits| && Joined(tables, tr, t, t')
    requires j < |tables[t]| == Pow2(tr.bits[t]) && Path(tr, t, j) == tr.paths[t']
    ensures IsLink(tr, t, j, tables[t][j], t')
  {
    assert Path(tr, t, j)[|tr.paths[t]|..] == BitsOf(j, tr.bits[t]);
    LsbBitsOf(j, tr.bits[t]);
  }

  // ---------------------------------------------------------------- next code

  predicate BitSet(i: nat, j: nat) { j != 0 && (i / j) % 2 == 1 }

  lemma TopBit(s: seq<bool>, n: nat)
    requires n < |s| && forall j :: n < j < |s| ==> !s[j]
    ensures Lsb(s) == Lsb(s[..n]) + (if s[n] then Pow2(n) else 0)
    ensures BitSet(Lsb(s), Pow2(n)) == s[n]
  {
    hide Lsb, Pow2;
    OneBit(s[n..]);
    LsbSplit(s, n);
    LsbAppend(s[..n], s[n..]);
    assert s == s[..n] + s[n..];
  }

  lemma OneBit(t: seq<bool>)
    requires t != [] && forall j :: 0 < j < |t| ==> !t[j]
    ensures Lsb(t) == if t[0] then 1 else 0
  {
    assert t == [t[0]] + seq(|t| - 1, _ => false);
    LsbZeros([t[0]], |t| - 1);
    assert Lsb([t[0]]) == Weight(t[0]) + 2 * Lsb([]);
  }

  /** Adds one to a code whose first bit is the most significant, on its
      bit-reversed form (lines 600-602). */
  method BackIncrement(i0: nat, k: nat, ghost code: seq<bool>) returns (i: nat)
    requires |code| == k >= 1 && i0 == Lsb(code)
    ensures i == Lsb(Succ(code))
  {
    hide Lsb, Pow2, BitSet;
    i := i0;
    var j := Pow2(k - 1);
    ghost var n := k;
    assert code[..n] == code;
    TopBit(code, k - 1);
    while BitSet(i, j)
      invariant 0 <= n <= k && i == Lsb(code[..n])
      invariant j == if n == 0 then 0 else Pow2(n - 1)
      invariant n > 0 ==> BitSet(i, j) == code[n - 1]
      invariant n == 0 ==> !BitSet(i, j)
      invariant Succ(code) == Succ(code[..n]) + seq(k - n, _ => false)
      decreases n
    {
      ClearTop(code, n);
      i := i - j;
      j := j / 2;
      n := n - 1;
    }
    SetTop(code, n);
    i := i + j;
  }

  lemma ClearTop(code: seq<bool>, n: nat)
    requires 0 < n <= |code| && code[n - 1]
    requires Succ(code) == Succ(code[..n]) + seq(|code| - n, _ => false)
    ensures Lsb(code[..n]) - Pow2(n - 1) == Lsb(code[..n - 1])
    ensures Pow2(n - 1) / 2 == if n == 1 then 0 else Pow2(n - 2)
    ensures n > 1 ==> BitSet(Lsb(code[..n - 1]), Pow2(n - 2)) == code[n - 2]
    ensures n == 1 ==> !BitSet(Lsb(code[..n - 1]), 0)
    ensures Succ(code) == Succ(code[..n - 1]) + seq(|code| - (n - 1), _ => false)
  {
    assert code[..n][..n - 1] == code[..n - 1];
    TopBit(code[..n], n - 1);
    if n > 1 {
      TopBit(code[..n - 1], n - 2);
    }
    assert [false] + seq(|code| - n, _ => false) == seq(|code| - (n - 1), _ => false);
  }

  lemma SetTop(code: seq<bool>, n: nat)
    requires n <= |code| && (n > 0 ==> !code[n - 1])
    requires Succ(code) == Succ(code[..n]) + seq(|code| - n, _ => false)
    ensures Lsb(Succ(code)) == Lsb(code[..n]) + if n == 0 then 0 else Pow2(n - 1)
  {
    LsbZeros(Succ(code[..n]), |code| - n);
    if n > 0 {
      var p := code[..n - 1];
      assert code[..n] == p + [false] && Succ(code[..n]) == p + [true];
      TopBit(p + [false], n - 1);
      TopBit(p + [true], n - 1);
      assert (p + [false])[..n - 1] == p && (p + [true])[..n - 1] == p;
    }
  }

  // ---------------------------------------------------------------- closing tables

  /** The stack without its innermost table. */
  function Popped(s: Work): Work
    requires |s.u| == |s.l| == |s.x| >= 2 && s.w >= s.l[|s.l| - 2]
  {
    var n := |s.u| - 1;
    s.(u := s.u[..n], l := s.l[..n], x := s.x[..n], w := s.w - s.l[n - 1])
  }

  /** Holds between the entries of `code` and the next code, starting at `cur`. */
  ghost predicate Between(p: Plan, s: Work, tr: Trail, code: seq<bool>, cur: nat) {
    && PlanOk(p) && 1 <= |code| <= p.g && s.u != []
    && Shape(p, s.tables, tr) && Filled(p, s.tables, tr, cur)
    && Stack(s, tr, code) && Retired(p, s, tr, cur)
  }

  lemma PoppedStack(p: Plan, s: Work, tr: Trail, code: seq<bool>)
    requires Stack(s, tr, code) && Shape(p, s.tables, tr) && |s.u| >= 2
    ensures s.w >= s.l[|s.l| - 2]
    ensures Stack(Popped(s), tr, code) && Popped(s).w < s.w
  {
    hide Val, Pow2, Lsb;
    var n := |s.u| - 1;
    assert OnPath(s, tr, code, n - 1) && OnPath(s, tr, code, n);
    assert Joined(s.tables, tr, s.u[n - 1], s.u[n]);
    hide Joined, Nested;
    var s' := Popped(s);
    forall i | 0 <= i < n ensures OnPath(s', tr, code, i) {
      assert OnPath(s, tr, code, i);
    }
  }

  lemma PoppedBetween(p: Plan, s: Work, tr: Trail, code: seq<bool>, cur: nat)
    requires Between(p, s, tr, code, cur) && |s.u| >= 2
    requires Val(tr.paths[s.u[|s.u| - 1]], p.g) + Pow2(p.g - |tr.paths[s.u[|s.u| - 1]]|) <= cur
    ensures s.w >= s.l[|s.l| - 2]
    ensures Between(p, Popped(s), tr, code, cur) && Popped(s).w < s.w
  {
    hide Val, Pow2, Lsb, Filled, Joined, Nested, Chained, OnPath;
    PoppedStack(p, s, tr, code);
    var n := |s.u| - 1;
    assert s.u == Popped(s).u + [s.u[n]];
  }
}
