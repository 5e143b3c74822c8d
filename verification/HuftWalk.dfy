/** Finished tables decode their code set. */
module HuftWalk {
  import opened Bits
  import opened Canonical
  import opened HuftPrepare
  import opened HuftSizes
  import opened HuftTables

  /** The first `k` bits of `s` are the slot (k, rank). */
  ghost predicate InSlot(p: Plan, s: seq<bool>, k: nat, rank: nat)
    requires p.g < |p.c|
  {
    1 <= k <= p.g && k <= |s| && rank < p.c[k] && Val(s[..k], p.g) == Start(p.c, k, rank, p.g)
  }

  /** What a walk from a table after `from` bits yields. It runs short where the
      bits asked for are not there. */
  ghost predicate WalkResult(p: Plan, s: seq<bool>, from: nat, w: Walked)
    requires p.g < |p.c| && p.n <= |p.v|
  {
    match w
    case Short =>
      |s| < p.g && forall k: nat, rank: nat :: k > from && InSlot(p, s, k, rank) ==> |s| < Asked(SizingOf(p), s[..k], from)
    case Lost => false
    case Leaf(entry, used, asked) =>
      && from < used <= asked && used <= |s|
      && asked == Asked(SizingOf(p), s[..used], from)
      && exists rank: nat :: InSlot(p, s, used, rank) && entry == EntryFor(p, Offset(p.c, used) + rank, entry.b)
  }

  lemma EntryIsNoLink(p: Plan, idx: nat, b: nat)
    requires p.n <= |p.v| && forall i :: 0 <= i < |p.al.ext| ==> p.al.ext[i] <= 16 || p.al.ext[i] == UNUSED
    ensures !IsLinkEntry(EntryFor(p, idx, b))
  {
  }

  ghost predicate GoodAlphabet(al: Alphabet) {
    forall i :: 0 <= i < |al.ext| ==> al.ext[i] <= 16 || al.ext[i] == UNUSED
  }

  /** One table look-up on bits that lead through table `t`. */
  lemma Lookup(p: Plan, tables: seq<seq<Huft>>, tr: Trail, t: nat, s: seq<bool>) returns (j: nat)
    requires Finished(p, tables, tr)
    requires t < |tables| && |tr.paths[t]| + tr.bits[t] <= |s| && s[..|tr.paths[t]|] == tr.paths[t]
    ensures j == Lsb(s[|tr.paths[t]|..|tr.paths[t]| + tr.bits[t]]) && j < |tables[t]|
    ensures Path(tr, t, j) == s[..|tr.paths[t]| + tr.bits[t]]
    ensures CellDone(p, tr, Pow2(p.g), t, j, tables[t][j])
  {
    var w, nb := |tr.paths[t]|, tr.bits[t];
    var q := s[w..w + nb];
    j := Lsb(q);
    LsbBound(q);
    BitsOfLsb(q);
    assert Path(tr, t, j) == s[..w + nb];
    ValBound(s[..w + nb], p.g);
  }

  lemma FollowLink(tables: seq<seq<Huft>>, tr: Trail, t: nat, s: seq<bool>, j: nat, t': nat)
    requires t < |tables| == |tr.paths| == |tr.bits| && |tr.paths[t]| + tr.bits[t] <= |s|
    requires j == Lsb(s[|tr.paths[t]|..|tr.paths[t]| + tr.bits[t]]) && j < |tables[t]|
    requires IsLink(tr, t, j, tables[t][j], t') && 1 <= tr.bits[t'] <= 16
    ensures |tr.paths[t']| == |tr.paths[t]| + tr.bits[t]
    ensures Walk(tables, t, tr.bits[t], s, |tr.paths[t]|) == Walk(tables, t', tr.bits[t'], s, |tr.paths[t']|)
  {
    hide BitsOf, Lsb, Pow2, Path;
  }

  lemma TakeLeaf(p: Plan, tables: seq<seq<Huft>>, tr: Trail, t: nat, s: seq<bool>, j: nat, k: nat, rank: nat)
    requires t < |tables| == |tr.paths| == |tr.bits| && |tr.paths[t]| + tr.bits[t] <= |s|
    requires p.g < |p.c| && p.n <= |p.v| && |tr.paths[t]| + tr.bits[t] <= p.g && GoodAlphabet(p.al)
    requires j == Lsb(s[|tr.paths[t]|..|tr.paths[t]| + tr.bits[t]]) && j < |tables[t]|
    requires Path(tr, t, j) == s[..|tr.paths[t]| + tr.bits[t]]
    requires IsLeaf(p, tr, Pow2(p.g), t, j, tables[t][j], k, rank)
    ensures Walk(tables, t, tr.bits[t], s, |tr.paths[t]|) == Leaf(tables[t][j], k, |tr.paths[t]| + tr.bits[t])
    ensures InSlot(p, s, k, rank)
  {
    EntryIsNoLink(p, Offset(p.c, k) + rank, k - |tr.paths[t]|);
    assert s[..|tr.paths[t]| + tr.bits[t]][..k] == s[..k];
  }

  /** No table lies on or below the end of a code. */
  lemma NoTableBelow(p: Plan, s: seq<bool>, k: nat, rank: nat, w: nat, j: nat)
    requires p.g < |p.c| && InSlot(p, s, k, rank) && w <= |s| && TableAt(SizingOf(p), s[..w], j)
    ensures w < k
  {
    hide Val, Pow2, Start, SizeChosen, Base;
    if k <= w {
      var k': nat, rank': nat :| OpensAt(SizingOf(p), s[..w], k', rank', j);
      assert s[..w][..k] == s[..k];
      ValPrefix(s[..w], k, p.g);
      StartOrder(p.c, k, rank, k', rank', p.g);
      assert false;
    }
  }

  lemma {:induction false} WalkFrom(p: Plan, tables: seq<seq<Huft>>, tr: Trail, t: nat, s: seq<bool>)
    requires Finished(p, tables, tr) && GoodAlphabet(p.al) && p.g <= 16
    requires t < |tables| && |tr.paths[t]| <= |s| && s[..|tr.paths[t]|] == tr.paths[t]
    ensures WalkResult(p, s, |tr.paths[t]|, Walk(tables, t, tr.bits[t], s, |tr.paths[t]|))
    decreases |tables| - t
  {
    hide Val, Pow2, Lsb, BitsOf, TableAt, Start, EntryFor;
    var from := |tr.paths[t]|;
    TableSizeIs(SizingOf(p), tr.paths[t], tr.bits[t]);
    forall k: nat | from < k <= |s| ensures s[..k][..from] == tr.paths[t] {
    }
    if from + tr.bits[t] <= |s| {
      var j := Lookup(p, tables, tr, t, s);
      if t': nat :| IsLink(tr, t, j, tables[t][j], t') {
        FollowLink(tables, tr, t, s, j, t');
        WalkFrom(p, tables, tr, t', s);
        FollowedResult(p, s, from, tr.bits[t], tr.bits[t'], Walk(tables, t', tr.bits[t'], s, |tr.paths[t']|));
      } else {
        var k: nat, rank: nat :| IsLeaf(p, tr, Pow2(p.g), t, j, tables[t][j], k, rank);
        TakeLeaf(p, tables, tr, t, s, j, k, rank);
      }
    }
  }

  /** What the table behind a link yields is what this one does. */
  lemma FollowedResult(p: Plan, s: seq<bool>, from: nat, nb: nat, nb': nat, w: Walked)
    requires p.g < |p.c| && p.n <= |p.v| && from + nb <= |s|
    requires TableSize(SizingOf(p), s[..from]) == nb && TableAt(SizingOf(p), s[..from + nb], nb')
    requires WalkResult(p, s, from + nb, w)
    ensures WalkResult(p, s, from, w)
  {
    hide Val, Pow2, TableAt, Start, EntryFor, Offset, InSlot;
    forall k: nat, rank: nat | k > from && InSlot(p, s, k, rank)
      ensures from + nb < k <= |s| && Asked(SizingOf(p), s[..k], from) == Asked(SizingOf(p), s[..k], from + nb)
    {
      NoTableBelow(p, s, k, rank, from + nb, nb');
      SlotBits(p, s, k, rank);
      assert s[..k][..from] == s[..from];
    }
  }

  lemma SlotBits(p: Plan, s: seq<bool>, k: nat, rank: nat)
    requires p.g < |p.c| && InSlot(p, s, k, rank)
    ensures k <= |s|
  {
  }

  /** The bit-by-bit decoder stops at the slot's length with the slot's symbol. */
  lemma DecodeOfSlot(lens: seq<nat>, p: Plan, s: seq<bool>, k: nat, rank: nat)
    requires Prepared(lens, p) && InSlot(p, s, k, rank)
    ensures rank < CountLen(lens, k) ==>
      var d := Decode(lens, s);
      && d.Found? && d.len == k && d.sym < |lens|
      && Offset(p.c, k) + rank < p.n && p.v[Offset(p.c, k) + rank] == d.sym
    ensures rank >= CountLen(lens, k) ==> k == p.g && !Decode(lens, s).Found?
  {
    hide Val, Pow2, Start, Offset, CountLen, Code;
    forall len: nat, sym: nat | 1 <= len < k ensures !CodeOf(lens, sym, s[..len]) {
      NoShorterCode(lens, p, s, k, rank, len, sym);
    }
    DecodeSkips(lens, s, 1, k);
    if rank < CountLen(lens, k) {
      var sym := SymbolOfRank(lens, k, rank);
      CodeIsStartOfPlan(lens, p, sym, s[..k]);
      PlaceOfSymbol(lens, p, sym);
      var d := DecodeFrom(lens, s, k);
      assert d.Found? && d.len == k;
      CodeInjective(lens, sym, d.sym, s[..k]);
    } else {
      NoCodeInDummySlot(lens, p, s, k, rank);
    }
  }

  lemma NoCodeInDummySlot(lens: seq<nat>, p: Plan, s: seq<bool>, k: nat, rank: nat)
    requires Prepared(lens, p) && InSlot(p, s, k, rank) && rank >= CountLen(lens, k)
    ensures k == p.g && !DecodeFrom(lens, s, k).Found?
  {
    forall len: nat, sym: nat | k <= len <= BMAX && len <= |s| ensures !CodeOf(lens, sym, s[..len]) {
      if CodeOf(lens, sym, s[..len]) {
        CodeIsStartOfPlan(lens, p, sym, s[..len]);
        PlaceOfSymbol(lens, p, sym);
        StartOrder(p.c, k, CountLen(lens[..sym], lens[sym]), k, rank, p.g);
      }
    }
    DecodeFails(lens, s, k);
  }

  /** The entry of a slot is the entry of the symbol decoded, if there is one. */
  lemma EntryOfSlot(p: Plan, lens: seq<nat>, s: seq<bool>, used: nat, rank: nat, entry: Huft)
    requires Prepared(lens, p) && InSlot(p, s, used, rank)
    requires entry == EntryFor(p, Offset(p.c, used) + rank, entry.b)
    ensures var d := Decode(lens, s);
            if d.Found? then used == d.len && entry == SymbolEntry(p.al, d.sym, entry.b)
            else entry.v.Undefined? && (entry.e == UNUSED || entry.e == 0)
  {
    hide Val, Pow2, Start, Offset, Decode, CountLen, InSlot;
    DecodeOfSlot(lens, p, s, used, rank);
    if rank >= CountLen(lens, used) {
      PlaceOfDummy(lens, p, rank);
    }
  }

  /** A symbol found is a slot, and the bits asked for are those of its code. */
  lemma FoundSlot(p: Plan, lens: seq<nat>, m0: nat, s: seq<bool>)
    requires Prepared(lens, p) && Clamped(SizingOf(p), m0)
    ensures var d := Decode(lens, s);
            d.Found? ==> && InSlot(p, s, d.len, CountLen(lens[..d.sym], lens[d.sym])) && d.sym < |lens|
                         && AsksOf(lens, m0)[d.sym] == Asked(SizingOf(p), s[..d.len], 0)
  {
    hide Val, Pow2, Start, Decode, CountLen, Asked, Base, Code;
    var d := Decode(lens, s);
    if d.Found? {
      CodeIsStartOfSizing(lens, SizingOf(p), d.sym, s[..d.len]);
      AskIs(lens, m0, SizingOf(p), d.sym, s[..d.len]);
    }
  }

  /** Finished tables give, on any bits, the symbol of the bit-by-bit decoder. */
  lemma TablesDecode(p: Plan, lens: seq<nat>, m0: nat, tables: seq<seq<Huft>>, tr: Trail, s: seq<bool>)
    requires Finished(p, tables, tr) && GoodAlphabet(p.al) && Prepared(lens, p) && Clamped(SizingOf(p), m0)
    ensures WalksRight(tables, tr.bits[0], lens, p.al, AsksOf(lens, m0), s)
  {
    hide Walk, Val, Pow2, Lsb, BitsOf, Start, Offset, Decode, EntryFor, CountLen, Filled, Asked, AsksOf, Sized, Clamped, SortedValues;
    GreatestLength(p, lens);
    WalkFrom(p, tables, tr, 0, s);
    FoundSlot(p, lens, m0, s);
    var d, w := Decode(lens, s), Walk(tables, 0, tr.bits[0], s, 0);
    if w.Leaf? {
      var rank: nat :| InSlot(p, s, w.used, rank) && w.entry == EntryFor(p, Offset(p.c, w.used) + rank, w.entry.b);
      EntryOfSlot(p, lens, s, w.used, rank, w.entry);
    } else if d.Found? {
      SlotBits(p, s, d.len, CountLen(lens[..d.sym], lens[d.sym]));
    }
  }

  lemma GreatestLength(p: Plan, lens: seq<nat>)
    requires Prepared(lens, p)
    ensures p.g <= 16
  {
  }
}
