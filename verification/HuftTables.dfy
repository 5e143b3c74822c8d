/** The linked lookup tables: their layout, the walk the decoder makes through
    them, and what it means for tables to decode a code set. A table is named
    by its index in the list of tables. */
module HuftTables {
  import opened Bits
  import opened Canonical
  import opened HuftPrepare
  import opened HuftSizes

  datatype Payload = Value(n: nat) | Table(t: nat) | Undefined

  /** One table entry: operation or extra bits, bits to dump, payload. An
      Undefined payload is one the source computes from memory it never wrote
      or from beyond the end of a list. */
  datatype Huft = Huft(e: nat, b: nat, v: Payload)

  const EOB := 15
  const LITERAL := 16
  const UNUSED := 99

  function SymbolEntry(al: Alphabet, sym: nat, b: nat): Huft {
    if sym < al.simple then Huft(if sym < 256 then LITERAL else EOB, b, Value(sym))
    else if sym - al.simple < |al.ext| && sym - al.simple < |al.base| then
      Huft(al.ext[sym - al.simple], b, Value(al.base[sym - al.simple]))
    else Huft(0, b, Undefined)
  }

  /** Entry for place `idx` of the value table. */
  function EntryFor(p: Plan, idx: nat, b: nat): Huft
    requires p.n <= |p.v|
  {
    if idx >= p.n then Huft(UNUSED, b, Undefined)
    else if p.v[idx] < 0 then Huft(0, b, Undefined)
    else SymbolEntry(p.al, p.v[idx], b)
  }

  predicate IsLinkEntry(r: Huft) { r.e > 16 && r.e != UNUSED }

  datatype Walked = Short | Lost | Leaf(entry: Huft, used: nat, asked: nat) {
    /** The same, when `n` bits have been asked for already. */
    function Having(n: nat): (r: Walked)
      ensures r.Leaf? ==> r.asked >= n
      ensures if Leaf? then r.Leaf? else r == this
    {
      if Leaf? && asked < n then Leaf(entry, used, n) else this
    }
  }

  /** The lookup loop of inflate_codes over the bits `s`: from table `t` of
      `nb` bits after `used` bits. `asked` counts the bits requested. */
  function Walk(tables: seq<seq<Huft>>, t: nat, nb: nat, s: seq<bool>, used: nat): (r: Walked)
    requires t < |tables| && used <= |s|
    ensures r.Leaf? ==> !IsLinkEntry(r.entry) && used + r.entry.b <= r.used <= r.asked <= |s|
    ensures r == r.Having(used + nb)
    decreases |tables| - t
  {
    if |s| - used < nb then Short
    else
      var j := Lsb(s[used..used + nb]);
      if j >= |tables[t]| then Lost
      else
        var r := tables[t][j];
        if r.b > nb then Lost
        else if IsLinkEntry(r) then
          if r.v.Table? && t < r.v.t < |tables|
          then Walk(tables, r.v.t, r.e - 16, s, used + r.b).Having(used + nb)
          else Lost
        else Leaf(r, used + r.b, used + nb)
  }

  /** What a walk must yield: the entry of the symbol whose code the bits start
      with, after exactly that code's bits; or an entry that stands for no
      symbol. It runs short exactly where the bits `ask` says are not there. */
  ghost predicate WalksRight(tables: seq<seq<Huft>>, m: nat, lens: seq<nat>, al: Alphabet, ask: seq<nat>, s: seq<bool>)
    requires |tables| > 0 && |ask| == |lens|
  {
    var d := Decode(lens, s);
    match Walk(tables, 0, m, s, 0)
    case Short => |s| < BMAX && (d.Found? ==> |s| < ask[d.sym])
    case Lost => false
    case Leaf(entry, used, asked) =>
      && 0 < used <= |s|
      && (d.Found? ==> used == d.len && entry == SymbolEntry(al, d.sym, entry.b) && asked == ask[d.sym])
      && (!d.Found? ==> entry.v.Undefined? && (entry.e == UNUSED || entry.e == 0))
  }

  ghost predicate DecodeLike(tables: seq<seq<Huft>>, m: nat, lens: seq<nat>, al: Alphabet, ask: seq<nat>) {
    |tables| > 0 && |ask| == |lens| && forall s :: WalksRight(tables, m, lens, al, ask, s)
  }

  // ---------------------------------------------------------------- layout

  /** For each table, the bits that lead to it and the bits it looks at. */
  datatype Trail = Trail(paths: seq<seq<bool>>, bits: seq<nat>)

  ghost predicate Shape(p: Plan, tables: seq<seq<Huft>>, tr: Trail) {
    && |tables| == |tr.paths| == |tr.bits|
    && forall t :: 0 <= t < |tables| ==>
         && |tables[t]| == Pow2(tr.bits[t])
         && 1 <= tr.bits[t] && |tr.paths[t]| + tr.bits[t] <= p.g
         && TableAt(SizingOf(p), tr.paths[t], tr.bits[t])
  }

  /** The bits that lead to cell `j` of table `t`. */
  ghost function Path(tr: Trail, t: nat, j: nat): (s: seq<bool>)
    requires t < |tr.paths| == |tr.bits|
    ensures |s| == |tr.paths[t]| + tr.bits[t]
  {
    tr.paths[t] + BitsOf(j, tr.bits[t])
  }

  ghost predicate IsLink(tr: Trail, t: nat, j: nat, r: Huft, t': nat)
    requires t < |tr.paths| == |tr.bits|
  {
    t < t' < |tr.paths| && tr.paths[t'] == Path(tr, t, j) && r == Huft(16 + tr.bits[t'], tr.bits[t], Table(t'))
  }

  ghost predicate IsLeaf(p: Plan, tr: Trail, cur: nat, t: nat, j: nat, r: Huft, k: nat, rank: nat)
    requires t < |tr.paths| == |tr.bits| && |tr.paths[t]| + tr.bits[t] <= p.g < |p.c|
    requires p.n <= |p.v|
  {
    && 1 <= k && |tr.paths[t]| < k <= |tr.paths[t]| + tr.bits[t]
    && rank < p.c[k]
    && Start(p.c, k, rank, p.g) + Pow2(p.g - k) <= cur
    && Val(Path(tr, t, j)[..k], p.g) == Start(p.c, k, rank, p.g)
    && r == EntryFor(p, Offset(p.c, k) + rank, k - |tr.paths[t]|)
  }

  ghost predicate CellDone(p: Plan, tr: Trail, cur: nat, t: nat, j: nat, r: Huft)
    requires t < |tr.paths| == |tr.bits| && |tr.paths[t]| + tr.bits[t] <= p.g < |p.c|
    requires p.n <= |p.v|
  {
    (exists t': nat :: IsLink(tr, t, j, r, t')) || (exists k: nat, rank: nat :: IsLeaf(p, tr, cur, t, j, r, k, rank))
  }

  /** Every cell that starts before `cur` is complete. */
  ghost predicate Filled(p: Plan, tables: seq<seq<Huft>>, tr: Trail, cur: nat)
    requires Shape(p, tables, tr) && p.g < |p.c| && p.n <= |p.v|
  {
    forall t, j :: 0 <= t < |tables| && 0 <= j < |tables[t]| && Val(Path(tr, t, j), p.g) < cur ==>
      CellDone(p, tr, cur, t, j, tables[t][j])
  }

  /** The finished product of the builder. */
  ghost predicate Finished(p: Plan, tables: seq<seq<Huft>>, tr: Trail) {
    && p.g < |p.c| && p.n <= |p.v| && Shape(p, tables, tr)
    && |tables| > 0 && tr.paths[0] == []
    && Filled(p, tables, tr, Pow2(p.g))
  }

  // ---------------------------------------------------------------- meaning of entries

  /** A place of the code order below the real count is its symbol's place;
      a place beyond it was never written. */
  lemma PlaceOfSymbol(lens: seq<nat>, p: Plan, sym: nat)
    requires Prepared(lens, p) && sym < |lens| && lens[sym] != 0
    ensures var k, r := lens[sym], CountLen(lens[..sym], lens[sym]);
            && r < CountLen(lens, k) <= p.c[k]
            && Offset(p.c, k) + r < p.n && p.v[Offset(p.c, k) + r] == sym
  {
    assert lens[sym] <= p.g;
    CountLenPrefix(lens, sym, lens[sym]);
    var c := CountTable(lens);
    OffsetSame(p.c, c, lens[sym]);
    assert forall i :: 0 <= i < |lens| ==> lens[i] <= BMAX;
    PositionBound(lens, c, sym);
    assert Position(lens, p.c, sym) == Position(lens, c, sym);
  }

  lemma PlaceOfDummy(lens: seq<nat>, p: Plan, rank: nat)
    requires Prepared(lens, p) && rank >= CountLen(lens, p.g)
    ensures var idx := Offset(p.c, p.g) + rank; idx < p.n ==> p.v[idx] == INDETERMINATE
  {
    var idx := Offset(p.c, p.g) + rank;
    if idx < p.n && p.v[idx] != INDETERMINATE {
      var s := p.v[idx];
      PlaceOfSymbol(lens, p, s);
      if lens[s] < p.g {
        OffsetMonotone(p.c, lens[s], p.g);
      }
    }
  }

  lemma CodeIsStartOfPlan(lens: seq<nat>, p: Plan, sym: nat, bits: seq<bool>)
    requires Prepared(lens, p) && sym < |lens| && 1 <= lens[sym] == |bits|
    ensures lens[sym] <= p.g
    ensures CodeOf(lens, sym, bits) <==>
            Val(bits, p.g) == Start(p.c, lens[sym], CountLen(lens[..sym], lens[sym]), p.g)
  {
    hide Val, Pow2, Start, Base, CodeOf, CountLen;
    CodeIsStartOfSizing(lens, SizingOf(p), sym, bits);
  }

  /** If the first `k` bits are the slot (k, rank), no shorter prefix is a code. */
  lemma NoShorterCode(lens: seq<nat>, p: Plan, s: seq<bool>, k: nat, rank: nat, len: nat, sym: nat)
    requires Prepared(lens, p) && 1 <= len < k <= |s| && k <= p.g && rank < p.c[k]
    requires Val(s[..k], p.g) == Start(p.c, k, rank, p.g)
    ensures !CodeOf(lens, sym, s[..len])
  {
    hide Val, Pow2, Start, CountLen;
    ValPrefix(s[..k], len, p.g);
    assert s[..k][..len] == s[..len];
    if CodeOf(lens, sym, s[..len]) {
      var r := CountLen(lens[..sym], lens[sym]);
      CodeIsStartOfPlan(lens, p, sym, s[..len]);
      PlaceOfSymbol(lens, p, sym);
      StartOrder(p.c, len, r, k, rank, p.g);
    }
  }

  lemma {:induction false} DecodeSkips(lens: seq<nat>, s: seq<bool>, from: nat, to: nat)
    requires 1 <= from <= to <= |s| && to <= BMAX
    requires forall len: nat, sym: nat :: from <= len < to ==> !CodeOf(lens, sym, s[..len])
    ensures DecodeFrom(lens, s, from) == DecodeFrom(lens, s, to)
    decreases BMAX - from
  {
    if from < to {
      DecodeSkips(lens, s, from + 1, to);
    }
  }

  lemma {:induction false} DecodeFails(lens: seq<nat>, s: seq<bool>, from: nat)
    requires 1 <= from <= BMAX + 1
    requires forall len: nat, sym: nat :: from <= len <= BMAX && len <= |s| ==> !CodeOf(lens, sym, s[..len])
    ensures DecodeFrom(lens, s, from) == if |s| >= BMAX || from > BMAX then NoCode else OutOfBits
    decreases BMAX + 1 - from
  {
    if from <= BMAX && from <= |s| {
      DecodeFails(lens, s, from + 1);
    }
  }
}
