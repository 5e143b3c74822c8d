/** The decoder of inflate.c: bit buffer, table look-ups, blocks. */
module Inflate {
  import opened Common
  import opened Bits
  import opened Canonical
  import opened HuftPrepare
  import opened HuftSizes
  import opened HuftTables
  import opened HuftWalk
  import opened HuftBuilder
  import opened Deflate
  import opened LookAhead
  import opened SlidingWindow

  /** The bits of the input, each byte from its least significant bit on. */
  ghost function Stream(input: seq<Byte>): (s: seq<bool>)
    ensures |s| == 8 * |input|
  {
    if input == [] then [] else BitsOf(input[0], 8) + Stream(input[1..])
  }

  lemma {:induction false} StreamByte(input: seq<Byte>, i: nat)
    requires i < |input|
    ensures Stream(input)[8 * i..8 * i + 8] == BitsOf(input[i], 8)
  {
    if i > 0 {
      StreamByte(input[1..], i - 1);
      assert Stream(input)[8 * i..8 * i + 8] == Stream(input[1..])[8 * (i - 1)..8 * (i - 1) + 8];
    } else {
      assert Stream(input)[..8] == BitsOf(input[0], 8);
    }
  }

  const LITERALS := Alphabet(257, LENGTH_BASE, LENGTH_EXTRA)
  const DISTANCES := Alphabet(0, DISTANCE_BASE, DISTANCE_EXTRA)
  const CODE_LENGTHS := Alphabet(19, [], [])

  /** How a routine ends: the source's zero; its error returns, where `atEnd`
      tells the 1 of NEEDBITS from the others; the code of a refusing output
      routine; or a step whose effect C leaves undefined. */
  datatype Result = Done | Failed(code: int, atEnd: bool) | Refused(code: int) | Stuck {
    /** No more can be decoded ... */
    predicate GaveUp() { Failed? || Stuck? }

    /** ... because the input has ended. */
    predicate Short() { Failed? && atEnd }
  }

  datatype Lookup = Entry(r: Huft) | OutOfInput | Invalid | Wild

  /** Bytes taken in, of which `pos` were before, once the bits up to `end` have
      been needed: no more than hold them. */
  function TakenFor(pos: nat, end: nat): nat {
    if pos < (end + 7) / 8 then (end + 7) / 8 else pos
  }

  lemma TakenTwice(pos: nat, a: nat, b: nat)
    ensures TakenFor(TakenFor(pos, a), b) == TakenFor(pos, if a < b then b else a)
  {
  }

  class Reader {
    /** What gz_input yields before end of file. */
    const input: seq<Byte>
    var pos: nat
    var bb: nat
    var bk: nat

    constructor (i: seq<Byte>)
      ensures Valid() && input == i && At() == 0
    {
      input := i;
      pos, bb, bk := 0, 0, 0;
    }

    ghost predicate Valid()
      reads this
    {
      && pos <= |input| && bk <= 8 * pos
      && bb == Lsb(Stream(input)[8 * pos - bk..8 * pos])
    }

    /** Number of bits of the input consumed. */
    ghost function At(): (p: nat)
      reads this
      requires Valid()
      ensures p <= 8 * |input|
    {
      8 * pos - bk
    }

    ghost function Ahead(): seq<bool>
      reads this
      requires Valid()
    {
      Stream(input)[At()..]
    }

    /** NEEDBITS: false where the source returns 1 at the end of the input. */
    method NeedBits(n: nat) returns (ok: bool)
      requires Valid()
      modifies this
      ensures Valid() && At() == old(At())
      ensures ok <==> At() + n <= 8 * |input|
      ensures if ok then bk >= n && pos == TakenFor(old(pos), At() + n) else pos == |input|
    {
      while bk < n
        invariant Valid() && At() == old(At()) && old(pos) <= pos <= TakenFor(old(pos), At() + n)
        decreases n - bk
      {
        if pos == |input| {
          return false;
        }
        NextByte(input, pos, bk);
        bb := bb + input[pos] * Pow2(bk);
        bk := bk + 8;
        pos := pos + 1;
      }
      ok := true;
    }

    /** DUMPBITS. */
    method DumpBits(n: nat)
      requires Valid() && n <= bk
      modifies this
      ensures Valid() && At() == old(At()) + n && pos == old(pos)
    {
      ghost var s := Stream(input)[8 * pos - bk..8 * pos];
      LsbSplit(s, n);
      assert s[n..] == Stream(input)[8 * pos - (bk - n)..8 * pos];
      bb := bb / Pow2(n);
      bk := bk - n;
    }

    /** The `n` bits at the front of the buffer. */
    method Peek(n: nat) returns (x: nat)
      requires Valid() && n <= bk
      ensures At() + n <= 8 * |input| && x == Lsb(Stream(input)[At()..At() + n]) < Pow2(n)
    {
      ghost var s := Stream(input)[8 * pos - bk..8 * pos];
      LsbSplit(s, n);
      assert s[..n] == Stream(input)[At()..At() + n];
      LsbBound(s[..n]);
      x := bb % Pow2(n);
    }

    /** Reads an `n`-bit number. */
    method GetBits(n: nat) returns (x: Option<nat>)
      requires Valid()
      modifies this
      ensures Valid() && x == Number(Stream(input), old(At()), n)
      ensures At() == if x.Some? then old(At()) + n else old(At())
      ensures x.Some? ==> x.value < Pow2(n) && pos == TakenFor(old(pos), At())
    {
      hide Stream, Lsb, Pow2;
      var ok := NeedBits(n);
      if !ok {
        return None;
      }
      var v := Peek(n);
      DumpBits(n);
      x := Some(v);
    }

    /** Drops the bits of one level and asks for those of the next. */
    method NextLevel(b: nat, nb: nat, ghost pos0: nat, ghost p: nat, ghost asked0: nat) returns (ok: bool, ghost asked: nat)
      requires Valid() && b <= bk && p <= At() && pos == TakenFor(pos0, p + asked0)
      modifies this
      ensures Valid() && At() == old(At()) + b
      ensures ok <==> At() + nb <= 8 * |input|
      ensures asked == if asked0 < At() + nb - p then At() + nb - p else asked0
      ensures ok ==> bk >= nb && pos == TakenFor(pos0, p + asked)
    {
      hide Stream, Lsb, Pow2, TakenFor;
      DumpBits(b);
      ok := NeedBits(nb);
      TakenTwice(pos0, p + asked0, At() + nb);
      asked := if asked0 < At() + nb - p then At() + nb - p else asked0;
    }

    /** The look-up loop of lines 662-671 and 689-698. */
    method DecodeEntry(tables: seq<seq<Huft>>, m: nat) returns (o: Lookup)
      requires Valid()
      modifies this
      ensures Valid()
      ensures tables == [] ==> o == Wild || o == OutOfInput
      ensures o.Entry? ==> tables != [] && o.r.e != UNUSED && !o.r.v.Undefined?
      ensures o.Entry? ==>
                (var w := Walk(tables, 0, m, old(Ahead()), 0);
                 && w.Leaf? && w.entry == o.r && At() == old(At()) + w.used
                 && pos == TakenFor(old(pos), old(At()) + w.asked))
      ensures o.Invalid? ==> tables != [] && (var w := Walk(tables, 0, m, old(Ahead()), 0); w.Leaf? && w.entry.e == UNUSED)
      ensures o.Wild? ==> tables == [] || Dead(Walk(tables, 0, m, old(Ahead()), 0))
      ensures o.OutOfInput? ==> tables == [] || Walk(tables, 0, m, old(Ahead()), 0).Short?
      ensures At() >= old(At())
    {
      hide Walk, Lsb, Stream, Pow2, TakenFor, Valid, At, Walked.Having;
      if tables != [] {
        WalkShort(tables, 0, m, Ahead(), 0);
      }
      var ok := NeedBits(m);
      if !ok {
        return OutOfInput;
      }
      if tables == [] {
        return Wild;
      }
      ghost var s, p, pos0 := Ahead(), At(), old(pos);
      var t: nat, nb: nat := 0, m;
      ghost var asked := m;
      while true
        invariant Valid() && t < |tables| && nb <= bk && At() >= p && s == Stream(input)[p..]
        invariant asked >= At() + nb - p && pos == TakenFor(pos0, p + asked)
        invariant Walk(tables, 0, m, s, 0) == Walk(tables, t, nb, s, At() - p).Having(asked)
        decreases |tables| - t
      {
        var j := Peek(nb);
        WalkStep(tables, t, nb, Stream(input), p, At() - p, j, asked);
        if j >= |tables[t]| || tables[t][j].b > nb {
          return Wild;
        }
        var r := tables[t][j];
        if !IsLinkEntry(r) {
          if r.e == UNUSED {
            return Invalid;
          }
          if r.v.Undefined? {
            return Wild;
          }
          DumpBits(r.b);
          return Entry(r);
        }
        if !r.v.Table? || !(t < r.v.t < |tables|) {
          return Wild;
        }
        t, nb := r.v.t, r.e - 16;
        ok, asked := NextLevel(r.b, nb, pos0, p, asked);
        WalkShort(tables, t, nb, s, At() - p);
        if !ok {
          return OutOfInput;
        }
      }
    }
  }

  lemma WalkShort(tables: seq<seq<Huft>>, t: nat, nb: nat, s: seq<bool>, used: nat)
    requires t < |tables| && used <= |s|
    ensures |s| - used < nb ==> Walk(tables, t, nb, s, used).Short?
  {
  }

  /** One iteration of the look-up loop, when `asked` bits have been asked for. */
  lemma WalkStep(tables: seq<seq<Huft>>, t: nat, nb: nat, stream: seq<bool>, p: nat, used: nat, j: nat, asked: nat)
    requires t < |tables| && p + used + nb <= |stream| && j == Lsb(stream[p + used..p + used + nb]) && asked >= used + nb
    ensures var s := stream[p..];
            var w := Walk(tables, t, nb, s, used).Having(asked);
            if j >= |tables[t]| || tables[t][j].b > nb then w == Lost
            else
              var r := tables[t][j];
              if !IsLinkEntry(r) then w == Leaf(r, used + r.b, asked)
              else if r.v.Table? && t < r.v.t < |tables| then
                var n := used + r.b + (r.e - 16);
                w == Walk(tables, r.v.t, r.e - 16, s, used + r.b).Having(if asked < n then n else asked)
              else w == Lost
  {
    hide Lsb;
    assert stream[p..][used..used + nb] == stream[p + used..p + used + nb];
  }

  /** Taking in one more byte above the `k` bits of the buffer. */
  lemma NextByte(input: seq<Byte>, pos: nat, k: nat)
    requires pos < |input| && k <= 8 * pos
    ensures var s := Stream(input);
            Lsb(s[8 * pos - k..8 * pos + 8]) == Lsb(s[8 * pos - k..8 * pos]) + input[pos] * Pow2(k)
  {
    hide Lsb, Pow2, BitsOf, Stream;
    var s := Stream(input);
    StreamByte(input, pos);
    AppendByte(s[8 * pos - k..8 * pos], s[8 * pos..8 * pos + 8], input[pos]);
    assert s[8 * pos - k..8 * pos + 8] == s[8 * pos - k..8 * pos] + s[8 * pos..8 * pos + 8];
  }

  lemma AppendByte(low: seq<bool>, high: seq<bool>, b: Byte)
    requires high == BitsOf(b, 8)
    ensures Lsb(low + high) == Lsb(low) + b * Pow2(|low|)
  {
    hide Lsb, Pow2, BitsOf;
    LsbAppend(low, high);
    TwoToTheEight();
    LsbBitsOf(b, 8);
  }

  lemma TwoToTheEight()
    ensures Pow2(8) == 256
  {
  }

  // ---------------------------------------------------------------- meaning of entries

  lemma LengthRow(i: nat)
    requires i < 31
    ensures |LENGTH_EXTRA| == 31 && if i < 29 then LENGTH_EXTRA[i] <= 5 else LENGTH_EXTRA[i] == UNUSED
  {
  }

  lemma LengthBase(i: nat)
    requires i < 29
    ensures |LENGTH_BASE| == 31 && LENGTH_BASE[i] >= 3
  {
  }

  lemma DistanceRow(i: nat)
    requires i < 30
    ensures |DISTANCE_EXTRA| == 30 && DISTANCE_EXTRA[i] <= 13 && |DISTANCE_BASE| == 30
  {
  }

  lemma AlphabetsGood()
    ensures GoodAlphabet(LITERALS) && GoodAlphabet(DISTANCES) && GoodAlphabet(CODE_LENGTHS)
  {
    assert |LENGTH_EXTRA| == 31;
    forall i | 0 <= i < 31 ensures LENGTH_EXTRA[i] <= 16 || LENGTH_EXTRA[i] == UNUSED {
      LengthRow(i);
    }
    assert |DISTANCE_EXTRA| == 30;
    forall i | 0 <= i < 30 ensures DISTANCE_EXTRA[i] <= 16 {
      DistanceRow(i);
    }
  }

  /** No distance reaches further back than the window. */
  lemma DistanceRange(i: nat, x: nat)
    requires i < 30 && x < Pow2(DISTANCE_EXTRA[i])
    ensures 1 <= DISTANCE_BASE[i] + x <= WSIZE
  {
    PowersOfTwo(DISTANCE_EXTRA[i]);
  }

  lemma PowersOfTwo(n: nat)
    requires n <= 13
    ensures Pow2(n) == [1, 2, 4, 8, 16, 32, 64, 128, 256, 512, 1024, 2048, 4096, 8192][n]
  {
    if n > 0 {
      PowersOfTwo(n - 1);
    }
  }

  /** An entry found by walking tables that decode like `lens`. */
  lemma EntryIsSymbol(tables: seq<seq<Huft>>, m: nat, lens: seq<nat>, al: Alphabet, ask: seq<nat>, s: seq<bool>, p: nat)
    requires DecodeLike(tables, m, lens, al, ask) && p <= |s|
    requires var w := Walk(tables, 0, m, s[p..], 0); w.Leaf? && w.entry.e != UNUSED && !w.entry.v.Undefined?
    ensures var w, d := Walk(tables, 0, m, s[p..], 0), Decode(lens, s[p..]);
            && d.Found? && d.len == w.used > 0 && w.entry == SymbolEntry(al, d.sym, w.entry.b)
            && w.asked == ask[d.sym] && Supplied(lens, ask, s, p)
  {
    hide Walk, Decode, SymbolEntry;
    assert WalksRight(tables, m, lens, al, ask, s[p..]);
  }

  /** The table entry of a length symbol. */
  predicate IsLengthEntry(r: Huft, sym: nat) {
    && END_OF_BLOCK < sym <= LAST_LENGTH && r.e == LENGTH_EXTRA[sym - 257] <= 5
    && r.v == Value(LENGTH_BASE[sym - 257]) && r.v.n >= 3
  }

  lemma LiteralMeaning(sym: nat, r: Huft)
    requires r == SymbolEntry(LITERALS, sym, r.b) && r.e != UNUSED && !r.v.Undefined?
    ensures r.e == LITERAL <==> sym < 256
    ensures r.e == EOB <==> sym == END_OF_BLOCK
    ensures sym < 256 ==> r.v == Value(sym)
    ensures sym > END_OF_BLOCK ==> IsLengthEntry(r, sym)
  {
    if sym > END_OF_BLOCK {
      assert sym - 257 < 31;
      LengthRow(sym - 257);
      LengthBase(sym - 257);
    }
  }

  /** The table entry of a distance symbol. */
  predicate IsDistanceEntry(r: Huft, sym: nat) {
    sym <= LAST_DISTANCE && r.e == DISTANCE_EXTRA[sym] <= 13 && r.v == Value(DISTANCE_BASE[sym])
  }

  lemma DistanceMeaning(sym: nat, r: Huft)
    requires r == SymbolEntry(DISTANCES, sym, r.b) && r.e != UNUSED && !r.v.Undefined?
    ensures IsDistanceEntry(r, sym)
  {
    assert sym < 30;
    DistanceRow(sym);
  }

  lemma DistanceBound(sym: nat, r: Huft, x: nat)
    requires IsDistanceEntry(r, sym) && x < Pow2(r.e)
    ensures 1 <= r.v.n + x <= WSIZE
  {
    hide Pow2;
    DistanceRange(sym, x);
  }

  /** No string of bits is a code. */
  ghost predicate NoCodes(lens: seq<nat>) {
    Oversubscribed(lens) || forall i :: 0 <= i < |lens| ==> lens[i] == 0
  }

  /** What huft_build leaves behind for the lengths `lens`. */
  ghost predicate Tabled(tables: seq<seq<Huft>>, m: nat, lens: seq<nat>, al: Alphabet, ask: seq<nat>) {
    && |ask| == |lens|
    && if tables == [] then NoCodes(lens) else DecodeLike(tables, m, lens, al, ask) && !Oversubscribed(lens)
  }

  /** The tables of a block with the alphabets `c`. */
  ghost predicate InTables(tl: seq<seq<Huft>>, td: seq<seq<Huft>>, bl: nat, bd: nat, c: Codebook) {
    && c.Valid() && Tabled(tl, bl, c.lit, LITERALS, c.la) && !Oversubscribed(c.lit) && Tabled(td, bd, c.dist, DISTANCES, c.da)
    && Modest(c.lit, c.la, OVERHANG)
  }

  lemma BuiltTabled(lens: seq<nat>, code: int, tables: seq<seq<Huft>>, m: nat, al: Alphabet, ask: seq<nat>)
    requires (forall i :: 0 <= i < |lens| ==> lens[i] <= BMAX) && RightCode(lens, code)
    requires tables == [] <==> code == 2 || forall i :: 0 <= i < |lens| ==> lens[i] == 0
    requires |ask| == |lens| && (tables != [] ==> DecodeLike(tables, m, lens, al, ask))
    ensures Tabled(tables, m, lens, al, ask) && (code != 2 ==> !Oversubscribed(lens))
  {
    hide Kraft, DecodeLike, Pow2;
  }

  lemma NothingDecoded(lens: seq<nat>, s: seq<bool>)
    requires forall i :: 0 <= i < |lens| ==> lens[i] == 0
    ensures !Decode(lens, s).Found?
  {
  }

  /** A look-up that reads what the source never wrote, or leads nowhere. */
  predicate Dead(w: Walked) {
    w.Lost? || (w.Leaf? && w.entry.v.Undefined?)
  }

  lemma DeadLiteral(tables: seq<seq<Huft>>, m: nat, lit: seq<nat>, dist: seq<nat>, ask: seq<nat>, s: seq<bool>, p: nat)
    requires Tabled(tables, m, lit, LITERALS, ask) && !Oversubscribed(lit) && p <= |s|
    requires tables == [] || Dead(Walk(tables, 0, m, s[p..], 0))
    ensures NextToken(lit, dist, s, p) == Wrong
  {
    hide Walk, Decode, Oversubscribed;
    if tables == [] {
      NothingDecoded(lit, s[p..]);
    } else {
      assert WalksRight(tables, m, lit, LITERALS, ask, s[p..]);
    }
  }

  lemma DeadLength(tables: seq<seq<Huft>>, m: nat, cl: seq<nat>, ask: seq<nat>, s: seq<bool>)
    requires Tabled(tables, m, cl, CODE_LENGTHS, ask) && !Oversubscribed(cl) && |cl| <= 19
    requires tables == [] || Dead(Walk(tables, 0, m, s, 0))
    ensures !Decode(cl, s).Found?
  {
    hide Walk, Decode, Oversubscribed;
    if tables == [] {
      NothingDecoded(cl, s);
    } else {
      assert WalksRight(tables, m, cl, CODE_LENGTHS, ask, s);
    }
  }

  lemma DeadDistance(tables: seq<seq<Huft>>, m: nat, dist: seq<nat>, ask: seq<nat>, s: seq<bool>, p: nat)
    requires Tabled(tables, m, dist, DISTANCES, ask) && p <= |s|
    requires tables == [] || Dead(Walk(tables, 0, m, s[p..], 0))
    ensures MatchDistance(dist, s, p) == None
  {
    hide Walk, Decode, Oversubscribed;
    if tables != [] {
      assert WalksRight(tables, m, dist, DISTANCES, ask, s[p..]);
    } else if !Oversubscribed(dist) {
      NothingDecoded(dist, s[p..]);
    }
  }

  lemma TabledMeans(tables: seq<seq<Huft>>, m: nat, lens: seq<nat>, al: Alphabet, ask: seq<nat>)
    requires Tabled(tables, m, lens, al, ask) && tables != []
    ensures DecodeLike(tables, m, lens, al, ask) && !Oversubscribed(lens)
  {
  }

  class Inflater {
    const r: Reader
    const win: Window
    /** What the uninitialised array of inflate_dynamic happens to hold. */
    const stack: seq<nat>
    var fixedTl: seq<seq<Huft>>
    var fixedTd: seq<seq<Huft>>
    var fixedBl: nat
    var fixedBd: nat

    constructor (reader: Reader, window: Window, garbage: seq<nat>)
      requires reader.Valid() && window.Valid() && |garbage| == 19
      ensures Valid() && r == reader && win == window && stack == garbage && fixedTl == []
    {
      r, win, stack := reader, window, garbage;
      fixedTl, fixedTd, fixedBl, fixedBd := [], [], 0, 0;
    }

    ghost predicate Valid()
      reads this, r, win, win.slide
    {
      && r.Valid() && win.Valid() && fixedBl <= BMAX && fixedBd <= BMAX && |stack| == 19
      && (fixedTl != [] ==>
            && Tabled(fixedTl, fixedBl, FixedLiterals(), LITERALS, AsksOf(FixedLiterals(), FIXED_LITERAL_LIMIT))
            && Tabled(fixedTd, fixedBd, FixedDistances(), DISTANCES, AsksOf(FixedDistances(), FIXED_DISTANCE_LIMIT))
            && !Oversubscribed(FixedLiterals()))
    }

    /** Reads a distance: the value of the code and its extra bits. */
    method ReadDistance(td: seq<seq<Huft>>, bd: nat, ghost dist: seq<nat>, ghost da: seq<nat>) returns (res: Result, d: nat)
      requires r.Valid() && Tabled(td, bd, dist, DISTANCES, da) && bd <= BMAX
      modifies r
      ensures r.Valid() && !res.Refused?
      ensures var s, p := Stream(r.input), old(r.At());
              && (res.GaveUp() ==> MatchDistance(dist, s, p) == None || (res.Short() && !Supplied(dist, da, s, p)))
              && (res.Done? ==> 1 <= d <= WSIZE && MatchDistance(dist, s, p) == Some((d, r.At())) && Supplied(dist, da, s, p))
    {
      hide Supplied, Walk, Lsb, Pow2, DecodeLike, SymbolEntry, Decode, Stream, MatchDistance, Number, Tabled, Oversubscribed, Dead;
      ghost var p := r.At();
      if td != [] {
        TabledMeans(td, bd, dist, DISTANCES, da);
      }
      d := 0;
      var o := r.DecodeEntry(td, bd);
      match o
      case OutOfInput =>
        ShortDistance(td, bd, dist, da, Stream(r.input), p);
        res := Failed(1, true);
      case Invalid =>
        InvalidDistance(td, bd, dist, da, Stream(r.input)[p..]);
        DistanceParts(dist, Stream(r.input), p, Huft(0, 0, Undefined));
        res := Failed(1, false);
      case Wild =>
        DeadDistance(td, bd, dist, da, Stream(r.input), p);
        res := Stuck;
      case Entry(t) =>
        DistanceEntry(td, bd, dist, da, Stream(r.input), p);
        var x := r.GetBits(t.e);
        if x == None {
          return Failed(1, true), 0;
        }
        d := t.v.n + x.value;
        res := Done;
    }

    /** One turn of the loop of inflate_codes. `more` is false at the end of
        the block. */
    method OneToken(tl: seq<seq<Huft>>, td: seq<seq<Huft>>, bl: nat, bd: nat, ghost c: Codebook)
      returns (res: Result, more: bool)
      requires r.Valid() && win.Valid() && bl <= BMAX && bd <= BMAX && InTables(tl, td, bl, bd, c)
      modifies r, win, win.slide
      ensures r.Valid() && Stands(win, res)
      ensures res.GaveUp() ==> win.History() == old(win.History())
      ensures res.GaveUp() ==> Starved(c, Stream(r.input), old(r.At()), res.Short())
      ensures res.Done? ==> After(c, Stream(r.input), old(r.At()), old(win.History()), more, r.At(), win.History())
      ensures !more ==> r.pos == TakenFor(old(r.pos), r.At())
      ensures win.History() <= Codes(c.lit, c.dist, Stream(r.input), old(r.At()), old(win.History())).out
    {
      hide TakenFor, Walk, Lsb, Pow2, DecodeLike, SymbolEntry, Decode, Stream, After, Supplied, Starved;
      ghost var p, s, h := r.At(), Stream(r.input), win.History();
      more := true;
      var o := r.DecodeEntry(tl, bl);
      match o
      case OutOfInput =>
        ShortLiteral(tl, bl, c, s, p);
        res := Failed(1, true);
      case Invalid =>
        InvalidLiteral(tl, bl, c, s, p);
        res := Failed(1, false);
      case Wild =>
        DeadLiteral(tl, bl, c.lit, c.dist, c.la, s, p);
        WrongStarves(c, s, p);
        res := Stuck;
      case Entry(t) =>
        EntryIsSymbol(tl, bl, c.lit, LITERALS, c.la, s, p);
        ghost var sym := Decode(c.lit, s[p..]).sym;
        LiteralMeaning(sym, t);
        if t.e == LITERAL {
          LiteralAfter(c, s, p, h);
          var code := win.Put(t.v.n);
          res := if code == 0 then Done else Refused(code);
        } else if t.e == EOB {
          EndAsks(tl, bl, c, s, p);
          EndAfter(c, s, p, h);
          more := false;
          res := Done;
        } else {
          res := TakeMatch(t, td, bd, c, p);
        }
    }

    /** The rest of a match, after its length code (lines 683-701): its length
        and its distance. */
    method ReadMatch(t: Huft, td: seq<seq<Huft>>, bd: nat, ghost c: Codebook, ghost p: nat) returns (res: Result, n: nat, d: nat)
      requires r.Valid() && c.Valid() && Tabled(td, bd, c.dist, DISTANCES, c.da) && bd <= BMAX
      requires p <= 8 * |r.input| && Supplied(c.lit, c.la, Stream(r.input), p)
      requires var d := Decode(c.lit, Stream(r.input)[p..]); d.Found? && r.At() == p + d.len && IsLengthEntry(t, d.sym)
      modifies r
      ensures r.Valid() && !res.Refused?
      ensures res.GaveUp() ==> Starved(c, Stream(r.input), p, res.Short())
      ensures res.Done? ==> n >= 1 && 1 <= d <= WSIZE && c.Next(Stream(r.input), p) == Match(n, d, r.At()) && c.Feeds(Stream(r.input), p)
    {
      hide Walk, Lsb, Pow2, DecodeLike, SymbolEntry, Decode, Stream, MatchDistance, MatchLength, Number, NextToken, Tabled, Starved, IsLengthEntry, Supplied, TokenFed;
      ghost var s := Stream(r.input);
      n, d := 0, 0;
      LengthParts(t, Decode(c.lit, s[p..]).sym, s, r.At());
      var x := r.GetBits(t.e);
      if x == None {
        LengthStarved(c, s, p);
        return Failed(1, true), n, d;
      }
      ghost var q := r.At();
      n := t.v.n + x.value;
      res, d := ReadDistance(td, bd, c.dist, c.da);
      if res.Done? {
        MatchToken(c, s, p, n, q, d, r.At());
      } else {
        DistanceStarved(c, s, p, n, q, res.Short());
      }
    }

    /** A match, after its length code (lines 683-721). */
    method TakeMatch(t: Huft, td: seq<seq<Huft>>, bd: nat, ghost c: Codebook, ghost p: nat) returns (res: Result)
      requires r.Valid() && win.Valid() && c.Valid() && Tabled(td, bd, c.dist, DISTANCES, c.da) && bd <= BMAX
      requires p <= 8 * |r.input| && Supplied(c.lit, c.la, Stream(r.input), p)
      requires var d := Decode(c.lit, Stream(r.input)[p..]); d.Found? && r.At() == p + d.len && IsLengthEntry(t, d.sym)
      modifies r, win, win.slide
      ensures r.Valid() && Stands(win, res)
      ensures res.GaveUp() ==> win.History() == old(win.History())
      ensures res.GaveUp() ==> Starved(c, Stream(r.input), p, res.Short())
      ensures res.Done? ==> After(c, Stream(r.input), p, old(win.History()), true, r.At(), win.History())
      ensures win.History() <= Codes(c.lit, c.dist, Stream(r.input), p, old(win.History())).out
    {
      hide Walk, Lsb, Pow2, DecodeLike, SymbolEntry, Decode, Stream, After, Copy, NextToken, Tabled, Starved, IsLengthEntry, Supplied, TokenFed;
      ghost var s, h := Stream(r.input), win.History();
      var n, d;
      res, n, d := ReadMatch(t, td, bd, c, p);
      if res.Done? {
        win.InRing();
        MatchAfter(c, s, p, h, n, d, r.At());
        var code := win.CopyMatch(n, d);
        res := if code == 0 then Done else Refused(code);
      }
    }

    /** inflate_codes: decodes to the end of the block. */
    method InflateCodes(tl: seq<seq<Huft>>, td: seq<seq<Huft>>, bl: nat, bd: nat, ghost c: Codebook) returns (res: Result)
      requires r.Valid() && win.Valid() && bl <= BMAX && bd <= BMAX && InTables(tl, td, bl, bd, c)
      modifies r, win, win.slide
      ensures r.Valid() && Stands(win, res)
      ensures var s, p := Stream(r.input), old(r.At());
              Agrees(Codes(c.lit, c.dist, s, p, old(win.History())), c.BlockEnd(s, p), res, win.History(), r.At())
    {
      hide Stream, Codes, NextToken, Tabled, Starved, Explains, Oversubscribed, Fed, TokenFed;
      ghost var s, o, f := Stream(r.input), Codes(c.lit, c.dist, Stream(r.input), r.At(), win.History()), c.BlockEnd(Stream(r.input), r.At());
      while true
        invariant r.Valid() && win.Valid() && o == Codes(c.lit, c.dist, s, r.At(), win.History()) && f == c.BlockEnd(s, r.At())
        decreases 8 * |r.input| - r.At()
      {
        ghost var q, h := r.At(), win.History();
        var more;
        res, more := OneToken(tl, td, bl, bd, c);
        if res.GaveUp() {
          StarvedCodes(c, s, q, h, res.Short());
        }
        if !res.Done? || !more {
          return;
        }
      }
    }

    /** The length of a stored block and its complement (lines 749-760). */
    method StoredLength() returns (ok: bool, atEnd: bool, len: nat)
      requires r.Valid()
      modifies r
      ensures r.Valid()
      ensures var s, q := Stream(r.input), ByteBoundary(old(r.At()));
              var n, c := Number(s, q, 16), Number(s, q + 16, 16);
              if n.None? || c.None? then !ok && atEnd
              else !atEnd && (ok <==> n.value + c.value == 0xFFFF) && (ok ==> len == n.value && r.At() == q + 32)
    {
      hide Stream, Lsb, Number, Pow2;
      AlignedBits(r.pos, r.bk);
      r.DumpBits(r.bk % 8);
      var n := r.GetBits(16);
      if n == None {
        return false, true, 0;
      }
      var com := r.GetBits(16);
      if com == None {
        return false, true, 0;
      }
      TwoToTheSixteen();
      return n.value == 0xFFFF - com.value, false, n.value;
    }

    /** inflate_stored. */
    method InflateStored() returns (res: Result)
      requires r.Valid() && win.Valid()
      modifies r, win, win.slide
      ensures r.Valid() && Stands(win, res)
      ensures var o := Stored(Stream(r.input), old(r.At()), old(win.History()));
              && Agrees(o, StoredFed(Stream(r.input), old(r.At())), res, win.History(), r.At())
              && (res.GaveUp() ==> o == Bad(win.History()))
    {
      hide Stream, StoredBytes, Lsb, Number, Stored, Pow2, StoredFed, Agrees, ByteBoundary;
      ghost var s, p0, h := Stream(r.input), r.At(), win.History();
      StoredParts(s, p0, h);
      ghost var o, f := Stored(s, p0, h), StoredFed(s, p0);
      var ok, atEnd, len := StoredLength();
      if !ok {
        res := Failed(1, atEnd);
      } else {
        res := StoredRun(len);
      }
      AgreesWhen(o, f, res, win.History(), r.At());
    }

    /** The bytes of a stored block (lines 762-770). */
    method StoredRun(len: nat) returns (res: Result)
      requires r.Valid() && win.Valid()
      modifies r, win, win.slide
      ensures r.Valid() && Stands(win, res)
      ensures var s, p, h := Stream(r.input), old(r.At()), old(win.History());
              var left := (|s| - p) / 8;
              && (res.Done? ==> len <= left && r.At() == p + 8 * len && win.History() == h + StoredBytes(s, p, len))
              && (res.GaveUp() ==> left < len && win.History() == h + StoredBytes(s, p, left))
              && win.History() <= h + StoredBytes(s, p, if len <= left then len else left)
    {
      hide Stream, StoredBytes, Lsb, Pow2, Number;
      ghost var s, p, h0, i := Stream(r.input), r.At(), win.History(), 0;
      var n := len;
      StoredNothing(s, p);
      TwoToTheEight();
      while n > 0
        invariant 0 <= n && 0 <= i && i + n == len
        invariant r.Valid() && win.Valid() && r.At() == p + 8 * i <= |s|
        invariant win.History() == h0 + StoredBytes(s, p, i)
      {
        n := n - 1;
        var b;
        res, b := StoredByte();
        if !res.GaveUp() {
          MoreStored(s, p, i, b);
          StoredFirst(s, p, i + 1, if len <= (|s| - p) / 8 then len else (|s| - p) / 8);
          assert h0 + StoredBytes(s, p, i) + [b] == h0 + StoredBytes(s, p, i + 1);
        }
        if res != Done {
          return;
        }
        i := i + 1;
      }
      res := Done;
    }

    method StoredByte() returns (res: Result, b: Byte)
      requires r.Valid() && win.Valid()
      modifies r, win, win.slide
      ensures r.Valid() && Stands(win, res)
      ensures var s, p, h := Stream(r.input), old(r.At()), old(win.History());
              && (res.GaveUp() <==> p + 8 > |s|) && (res.GaveUp() ==> win.History() == h)
              && (!res.GaveUp() ==> b == Lsb(s[p..p + 8]) && win.History() == h + [b])
              && (res.Done? ==> r.At() == p + 8)
    {
      hide Stream, Lsb, Pow2;
      TwoToTheEight();
      b := 0;
      var ok := r.NeedBits(8);
      if !ok {
        return Failed(1, true), b;
      }
      b := r.Peek(8);
      var code := win.Put(b);
      if code != 0 {
        return Refused(code), b;
      }
      r.DumpBits(8);
      res := Done;
    }

    /** inflate_fixed: builds the tables for the fixed codes the first time. */
    method InflateFixed() returns (res: Result)
      requires Valid()
      modifies this, r, win, win.slide
      ensures r.Valid() && StandsCoded(win, res) && (!res.Refused? ==> Valid())
      ensures var s, p := Stream(r.input), old(r.At());
              Agrees(Block(1, s, p, old(win.History())), FixedFed(s, p), res, win.History(), r.At())
    {
      hide Stream, Codes, Kraft, DecodeLike, Pow2, FixedLiterals, FixedDistances, RightCode, Explains, SingleLevel, AsksOf, Fed;
      if fixedTl == [] {
        AlphabetsGood();
        var l := FixedLengths();
        FixedSets();
        var built := HuftBuild(l, LITERALS, FIXED_LITERAL_LIMIT);
        FixedCode(built.code);
        assert l[0] != 0;
        if built.code != 0 {
          return Failed(built.code, false);
        }
        var d := seq(30, _ => 5);
        assert d == FixedDistances() by { FixedDistanceList(); }
        var builtD := HuftBuild(d, DISTANCES, FIXED_DISTANCE_LIMIT);
        FixedDistanceCode(builtD.code);
        assert d[0] != 0;
        if builtD.code > 1 {
          return Failed(builtD.code, false);
        }
        BuiltTabled(l, built.code, built.tables, built.m, LITERALS, AsksOf(l, FIXED_LITERAL_LIMIT));
        BuiltTabled(d, builtD.code, builtD.tables, builtD.m, DISTANCES, AsksOf(d, FIXED_DISTANCE_LIMIT));
        fixedTl, fixedBl := built.tables, built.m;
        fixedTd, fixedBd := builtD.tables, builtD.m;
      }
      AsksModest(FixedLiterals(), FIXED_LITERAL_LIMIT);
      ghost var c := Codebook(FixedLiterals(), FixedDistances(), AsksOf(FixedLiterals(), FIXED_LITERAL_LIMIT), AsksOf(FixedDistances(), FIXED_DISTANCE_LIMIT));
      res := InflateCodes(fixedTl, fixedTd, fixedBl, fixedBd, c);
      res := if res.Refused? then Refused(1) else res;
    }

    /** The lengths of the code length code (lines 872-878). */
    method ReadCodeLengthCode(nb: nat) returns (ok: bool, ll: seq<nat>)
      requires r.Valid() && nb <= 19 && |stack| == 19
      modifies r
      ensures r.Valid() && |ll| == 19
      ensures ok <==> old(r.At()) + 3 * nb <= 8 * |r.input|
      ensures ok ==> r.At() == old(r.At()) + 3 * nb && ll == CodeLengthCode(Stream(r.input), old(r.At()), nb)
    {
      hide Stream, Lsb, CodeLengthCode, Number, Sent;
      ghost var s, p := Stream(r.input), r.At();
      ll := stack;
      var j := 0;
      NoneSent(s, p, ll);
      while j < nb
        invariant 0 <= j <= nb && r.Valid() && |ll| == 19 && r.At() == p + 3 * j <= |s|
        invariant Sent(s, p, j, ll)
      {
        NumberIs(s, p + 3 * j, 3);
        var x := r.GetBits(3);
        if x == None {
          return false, ll;
        }
        OneMoreSent(s, p, j, ll, x.value);
        ll := ll[BORDER[j] := x.value];
        j := j + 1;
      }
      ll := ZeroRest(ll, nb, s, p);
      ok := true;
    }

    /** The single-level look-up of lines 892-895. */
    method LookupOnce(tables: seq<seq<Huft>>, m: nat) returns (o: Lookup)
      requires r.Valid() && (tables != [] ==> SingleLevel(tables, m))
      modifies r
      ensures r.Valid() && r.At() >= old(r.At())
      ensures o.Entry? ==> tables != [] && !o.r.v.Undefined?
      ensures o.Entry? ==>
                (var w := Walk(tables, 0, m, old(r.Ahead()), 0);
                 w.Leaf? && w.entry == o.r && r.At() == old(r.At()) + w.used)
      ensures o.Wild? ==> tables == [] || Dead(Walk(tables, 0, m, old(r.Ahead()), 0))
      ensures !o.Invalid? && (o.OutOfInput? ==> tables == [] || Walk(tables, 0, m, old(r.Ahead()), 0).Short?)
    {
      hide Walk, Lsb, Stream, Pow2;
      if tables != [] {
        WalkShort(tables, 0, m, r.Ahead(), 0);
      }
      var ok := r.NeedBits(m);
      if !ok {
        return OutOfInput;
      }
      if tables == [] {
        return Wild;
      }
      var j := r.Peek(m);
      WalkStep(tables, 0, m, Stream(r.input), r.At(), 0, j, m);
      var t := tables[0][j];
      if t.b > m || t.v.Undefined? {
        return Wild;
      }
      r.DumpBits(t.b);
      o := Entry(t);
    }

    /** The code lengths of both alphabets (lines 888-925). */
    method ReadLengths(tables: seq<seq<Huft>>, m: nat, n: nat, ghost cl: seq<nat>, ghost ca: seq<nat>) returns (res: Result, ll: seq<nat>)
      requires r.Valid() && m <= BMAX && (tables != [] ==> SingleLevel(tables, m))
      requires Tabled(tables, m, cl, CODE_LENGTHS, ca) && !Oversubscribed(cl) && |cl| <= 19 && |ca| == |cl|
      modifies r
      ensures r.Valid() && !res.Refused?
      ensures var s, p := Stream(r.input), old(r.At());
              var o, fed := Lengths(cl, s, p, n, []), LengthsFed(cl, ca, s, p, n, []);
              && (res.Done? ==> o == Some((ll, r.At())) && AllBelow(ll, 16) && fed)
              && (res.GaveUp() ==> o.None? || (res.Short() && !fed))
    {
      hide Stream, Lengths, Walk, Decode, Lsb, Pow2, DecodeLike, SingleLevel, Number, Repeat, Tabled, Oversubscribed, Dead, Supplied, LengthsFed;
      ghost var s := Stream(r.input);
      ghost var goal, fed := Lengths(cl, s, r.At(), n, []), LengthsFed(cl, ca, s, r.At(), n, []);
      ll := [];
      var l := 0;
      while |ll| < n
        invariant r.Valid() && goal == Lengths(cl, s, r.At(), n, ll) && AllBelow(ll, 16)
        invariant fed == LengthsFed(cl, ca, s, r.At(), n, ll)
        invariant l == LastLength(ll)
        decreases 8 * |r.input| - r.At()
      {
        ghost var p := r.At();
        LengthsStep(cl, ca, s, p, n, ll);
        var o := LookupOnce(tables, m);
        match o
        case OutOfInput =>
          ShortLength(tables, m, cl, ca, s, p);
          return Failed(1, true), ll;
        case Invalid => return Stuck, ll;
        case Wild =>
          DeadLength(tables, m, cl, ca, s[p..]);
          return Stuck, ll;
        case Entry(t) =>
          TabledMeans(tables, m, cl, CODE_LENGTHS, ca);
          LengthEntry(tables, m, cl, ca, s, p);
          var j := t.v.n;
          if j < 16 {
            ll, l := ll + [j], j;
          } else {
            var bits, first := if j == 16 then 2 else if j == 17 then 3 else 7, if j == 18 then 11 else 3;
            var x := r.GetBits(bits);
            if x == None {
              return Failed(1, true), ll;
            }
            var count := first + x.value;
            if |ll| + count > n {
              TooManyLengths(cl, s, r.At(), n, ll + Repeat(count, if j == 16 then l else 0));
              RepeatLast(ll, count, if j == 16 then l else 0);
              return Failed(1, false), ll;
            }
            RepeatLast(ll, count, if j == 16 then l else 0);
            ll := ll + Repeat(count, if j == 16 then l else 0);
            l := if j == 16 then l else 0;
          }
      }
      LengthsEnd(cl, ca, s, r.At(), n, ll);
      res := if |ll| == n then Done else Stuck;
    }

    /** inflate_dynamic. */
    method InflateDynamic() returns (res: Result)
      requires r.Valid() && win.Valid() && |stack| == 19
      modifies r, win, win.slide
      ensures r.Valid() && StandsCoded(win, res)
      ensures var s, p := Stream(r.input), old(r.At());
              Agrees(Dynamic(s, p, old(win.History())), DynamicFed(s, p), res, win.History(), r.At())
    {
      hide Stream, Codes, DecodeLike, SingleLevel, Explains, Codings, Acceptable, Kraft, RightCode, Dynamic, HeaderRead, ExplainsHeader, Tabled, Oversubscribed, AsksOf, Fed, HeaderFed, DynamicFed;
      ghost var s, p, h := Stream(r.input), r.At(), win.History();
      var lit, dist;
      res, lit, dist := ReadHeader();
      HeaderExplains(s, p, h, res.Short());
      if res != Done {
        return;
      }
      HeaderSizes(s, p, lit, dist, r.At());
      AlphabetsGood();
      var tl := HuftBuild(lit, LITERALS, LITERAL_LIMIT);
      CodeAccepts(lit, tl.code);
      DynamicCodes(s, p, h, lit, dist, r.At());
      if tl.code != 0 {
        return Failed(tl.code, false);
      }
      BuiltTabled(lit, tl.code, tl.tables, tl.m, LITERALS, AsksOf(lit, LITERAL_LIMIT));
      var td := HuftBuild(dist, DISTANCES, DISTANCE_LIMIT);
      BuiltTabled(dist, td.code, td.tables, td.m, DISTANCES, AsksOf(dist, DISTANCE_LIMIT));
      AsksModest(lit, LITERAL_LIMIT);
      res := InflateCodes(tl.tables, td.tables, tl.m, td.m, Codebook(lit, dist, AsksOf(lit, LITERAL_LIMIT), AsksOf(dist, DISTANCE_LIMIT)));
      res := if res.Refused? then Refused(1) else res;
    }

    /** The header of a dynamic block (lines 854-932). */
    method ReadHeader() returns (res: Result, lit: seq<nat>, dist: seq<nat>)
      requires r.Valid() && |stack| == 19
      modifies r
      ensures r.Valid() && !res.Refused?
      ensures res.Done? ==> HeaderRead(Stream(r.input), old(r.At()), lit, dist, r.At()) && HeaderFed(Stream(r.input), old(r.At()))
      ensures res.GaveUp() ==> ExplainsHeader(Stream(r.input), old(r.At()), res.Short())
    {
      hide Stream, Number, SetsAt, Codings, Pow2, HeaderRead, HeaderFed;
      ghost var s, p := Stream(r.input), r.At();
      lit, dist := [], [];
      HeaderParts(s, p);
      var hlit := r.GetBits(5);
      if hlit == None {
        return Failed(1, true), [], [];
      }
      var hdist := r.GetBits(5);
      if hdist == None {
        return Failed(1, true), [], [];
      }
      var hclen := r.GetBits(4);
      if hclen == None {
        return Failed(1, true), [], [];
      }
      HeaderRange();
      var nl, nd, nb := 257 + hlit.value, 1 + hdist.value, 4 + hclen.value;
      if nl > 288 || nd > 32 {
        return Failed(1, false), [], [];
      }
      res, lit, dist := ReadSets(nl, nd, nb, p);
    }

    /** The code length code and the two sets of lengths (lines 871-932). */
    method ReadSets(nl: nat, nd: nat, nb: nat, ghost p: nat) returns (res: Result, lit: seq<nat>, dist: seq<nat>)
      requires r.Valid() && |stack| == 19 && r.At() == p + 14
      requires 257 <= nl <= 288 && 1 <= nd <= 32 && nb <= 19
      requires SetsAt(Stream(r.input), p, nl, nd, nb)
      modifies r
      ensures r.Valid() && !res.Refused?
      ensures res.Done? ==> HeaderRead(Stream(r.input), p, lit, dist, r.At()) && HeaderFed(Stream(r.input), p)
      ensures res.GaveUp() ==> ExplainsHeader(Stream(r.input), p, res.Short())
    {
      hide Stream, Lengths, CodeLengthCode, DecodeLike, SingleLevel, Acceptable, Kraft, RightCode, Codings, Tabled, Oversubscribed, AsksOf, LengthsFed, HeaderFed;
      lit, dist := [], [];
      var ok, cl := ReadCodeLengthCode(nb);
      if !ok {
        return Failed(1, true), [], [];
      }
      AlphabetsGood();
      SmallLengths(Stream(r.input), p + 14, nb);
      var tl := HuftBuild(cl, CODE_LENGTHS, LENGTH_LIMIT);
      CodeAccepts(cl, tl.code);
      if tl.code != 0 {
        return Failed(tl.code, false), [], [];
      }
      BuiltTabled(cl, tl.code, tl.tables, tl.m, CODE_LENGTHS, AsksOf(cl, LENGTH_LIMIT));
      var ll;
      res, ll := ReadLengths(tl.tables, tl.m, nl + nd, cl, AsksOf(cl, LENGTH_LIMIT));
      if res.Done? {
        lit, dist := ll[..nl], ll[nl..];
      }
    }

    /** inflate_block: the type of a block and its contents. */
    method InflateBlock() returns (res: Result, last: bool)
      requires Valid()
      modifies this, r, win, win.slide
      ensures r.Valid() && StandsAny(win, res) && (!res.Refused? ==> Valid())
      ensures var s, p, h := Stream(r.input), old(r.At()), old(win.History());
              if p + 3 > |s| then res.GaveUp() && win.History() == h
              else
                var kind := Lsb(s[p + 1..p + 3]);
                && (res.Done? ==> last == s[p])
                && (if kind == 0 then Stands(win, res) else StandsCoded(win, res))
                && Agrees(Block(kind, s, p + 3, h), BlockFed(kind, s, p + 3), res, win.History(), r.At())
    {
      hide Agrees, Explains, FixedFed, DynamicFed, StoredFed, Stands, StandsCoded, Stream, Codes, Stored, Dynamic, DecodeLike, Tabled, Pow2, Number, FixedLiterals, FixedDistances, Block, Oversubscribed, Lsb;
      ghost var s, p, h := Stream(r.input), r.At(), win.History();
      last := false;
      NumberIs(s, p, 1);
      NumberIs(s, p + 1, 2);
      var e := r.GetBits(1);
      FailureStands(win);
      if e == None {
        return Failed(1, true), last;
      }
      OneBitNumber(s, p);
      last := e.value == 1;
      var t := r.GetBits(2);
      FailureStands(win);
      if t == None {
        return Failed(1, true), last;
      }
      BlockIs(t.value, s, p + 3, h);
      if t.value == 2 {
        res := InflateDynamic();
        if !res.Refused? {
          NotRefused(win, res);
        }
      } else if t.value == 0 {
        res := InflateStored();
        if !res.Refused? {
          NotRefused(win, res);
        }
      } else if t.value == 1 {
        res := InflateFixed();
      } else {
        FailureStands(win);
        res := Failed(2, false);
      }
    }

    /** Blocks up to the one marked last (lines 1026-1032). */
    method InflateBlocks() returns (res: Result)
      requires Valid()
      modifies this, r, win, win.slide
      ensures r.Valid() && StandsAny(win, res) && (!res.Refused? ==> Valid())
      ensures var s, p := Stream(r.input), old(r.At());
              Agrees(Inflated(s, p, old(win.History())), StreamFed(s, p), res, win.History(), r.At())
    {
      hide Stream, Inflated, Block, Explains, Tabled, DecodeLike, Oversubscribed, FixedLiterals, FixedDistances, StreamFed, BlockFed, AsksOf;
      ghost var s := Stream(r.input);
      ghost var o, f := Inflated(s, r.At(), win.History()), StreamFed(s, r.At());
      while true
        invariant Valid() && o == Inflated(s, r.At(), win.History()) && f == StreamFed(s, r.At())
        decreases 8 * |r.input| - r.At()
      {
        ghost var p, h := r.At(), win.History();
        var last;
        res, last := InflateBlock();
        InflatedStep(s, p, h, res, win.History(), r.At());
        if !res.Done? || last {
          return;
        }
      }
    }

    /** xinflate: the blocks, then what is left in the window. */
    method Xinflate() returns (res: Result)
      requires Valid() && r.At() == 0 && win.flushed == [] && win.wp == 0
      modifies this, r, win, win.slide
      ensures r.Valid() && win.wp <= win.slide.Length
      ensures SoFarRight(Inflated(Stream(r.input), 0, win.before), StreamFed(Stream(r.input), 0), win.before, win.flushed, win.History(), res, r.At())
      ensures Judged(Inflated(Stream(r.input), 0, []), StreamFed(Stream(r.input), 0), win.flushed, res, r.At(), 8 * |r.input|)
      ensures res.Done? ==> win.calls == |win.flushed| / 32768 + 1 && win.TookAll(win.calls)
      ensures res.Refused? ==> win.Refused() && (res.code == 1 || win.Refusing(res.code))
    {
      hide Stream, Inflated, Tabled, DecodeLike, FixedLiterals, FixedDistances, Oversubscribed, StreamFed, AsksOf, SoFarRight, Judged, Agrees, Window.Ring, Window.TookAll;
      NothingOutput();
      res := InflateBlocks();
      ghost var res0, h := res, win.History();
      OutputFirst(win.before, win.flushed, win.slide[..win.wp]);
      if res.Done? {
        res := FlushOut();
      }
      FinalWord(Stream(r.input), win.before, res0, h, r.At(), res, win.flushed, win.History());
    }

    lemma NothingOutput()
      requires win.Valid() && win.flushed == [] && win.wp == 0
      ensures win.History() == win.before
    {
    }

    /** What is left in the window is flushed too (lines 1034-1035). */
    method FlushOut() returns (res: Result)
      requires r.Valid() && win.Valid()
      modifies win`flushed, win`calls
      ensures !res.GaveUp()
      ensures win.before + win.flushed <= old(win.History())
      ensures res.Done? ==> win.before + win.flushed == old(win.History())
      ensures res.Done? ==> win.calls == |win.flushed| / 32768 + 1 && win.TookAll(win.calls)
      ensures res.Refused? ==> win.Refusing(res.code)
    {
      win.InRing();
      var code := win.FlushRest();
      res := if code == 0 then Done else Refused(code);
    }
  }

  lemma OutputFirst(before: seq<Byte>, flushed: seq<Byte>, rest: seq<Byte>)
    ensures before + flushed <= before + flushed + rest
  {
  }

  /** All output is right as far as it goes, whatever was in the window before:
      all of it on success, all that there is before an error in the stream, and
      otherwise until a look-up lacks bits. */
  ghost predicate SoFarRight(o: Outcome, f: Option<nat>, before: seq<Byte>, out: seq<Byte>, h: seq<Byte>, res: Result, q: nat) {
    && before + out <= o.out
    && (res.Done? ==> o == Good(before + out, q))
    && (res.GaveUp() ==> Explains(o, f, h, res.Short()))
  }

  /** How the end compares with `v`, what a decoder with an empty history makes
      of `n` bits. A valid stream is decoded if and only if each look-up is fed,
      unless the output routine refuses; seven more bits are always enough. */
  ghost predicate Judged(v: Outcome, f: Option<nat>, out: seq<Byte>, res: Result, q: nat, n: nat) {
    && (v.Good? ==> out <= v.out)
    && (v.Good? && res.Done? ==> out == v.out && q == v.p)
    && (res.GaveUp() && !res.Short() ==> v.Bad?)
    && (v.Good? && f.Some? ==> res.Done? || res.Refused?)
    && (v.Good? && f.None? ==> res.Short() || res.Refused?)
    && (v.Good? && v.p + 7 <= n ==> f.Some?)
  }

  /** What the blocks and the last flush amount to. */
  lemma FinalWord(s: seq<bool>, before: seq<Byte>, res0: Result, h0: seq<Byte>, q: nat, res: Result, out: seq<Byte>, h: seq<Byte>)
    requires Agrees(Inflated(s, 0, before), StreamFed(s, 0), res0, h0, q) && before + out <= h0
    requires if res0.Done? then !res.GaveUp() && (res.Done? ==> before + out == h0) else res == res0 && h == h0
    ensures SoFarRight(Inflated(s, 0, before), StreamFed(s, 0), before, out, h, res, q)
    ensures Judged(Inflated(s, 0, []), StreamFed(s, 0), out, res, q, |s|)
  {
    hide Inflated, StreamFed;
    var v := Inflated(s, 0, []);
    ValidApart(s, before);
    if v.Good? {
      SamePart(before, out, v.out);
      if v.p + 7 <= |s| {
        StreamWithSpare(s, 0, []);
      }
    }
  }

  lemma SamePart(w: seq<Byte>, a: seq<Byte>, b: seq<Byte>)
    ensures w + a <= w + b <==> a <= b
    ensures w + a == w + b <==> a == b
  {
    assert (w + a)[|w|..] == a && (w + b)[|w|..] == b;
    if w + a <= w + b {
      assert forall i :: 0 <= i < |a| ==> a[i] == (w + a)[|w| + i] == (w + b)[|w| + i] == b[i];
    }
  }

  lemma NumberIs(s: seq<bool>, p: nat, n: nat)
    ensures Number(s, p, n) == if p + n <= |s| then Some(Lsb(s[p..p + n])) else None
  {
  }

  lemma OneBitNumber(s: seq<bool>, p: nat)
    requires p + 1 <= |s|
    ensures Lsb(s[p..p + 1]) == if s[p] then 1 else 0
  {
    assert s[p..p + 1] == [s[p]];
    assert Lsb([s[p]]) == Weight(s[p]) + 2 * Lsb([]);
  }

  lemma BlockIs(kind: nat, s: seq<bool>, p: nat, h: seq<Byte>)
    ensures kind == 0 ==> Block(kind, s, p, h) == Stored(s, p, h)
    ensures kind == 2 ==> Block(kind, s, p, h) == Dynamic(s, p, h)
    ensures kind > 2 ==> Block(kind, s, p, h) == Bad(h)
    ensures kind > 2 ==> forall q :: Agrees(Block(kind, s, p, h), BlockFed(kind, s, p), Failed(2, false), h, q)
    ensures BlockFed(kind, s, p) == if kind == 0 then StoredFed(s, p) else if kind == 1 then FixedFed(s, p) else if kind == 2 then DynamicFed(s, p) else None
  {
  }

  /** One block decides the rest, or is followed by it. */
  lemma InflatedStep(s: seq<bool>, p: nat, h: seq<Byte>, res: Result, h': seq<Byte>, q: nat)
    ensures p + 3 > |s| && res.GaveUp() ==> Agrees(Inflated(s, p, h), StreamFed(s, p), res, h, q)
    ensures p + 3 <= |s| ==>
              (var kind := Lsb(s[p + 1..p + 3]);
               Agrees(Block(kind, s, p + 3, h), BlockFed(kind, s, p + 3), res, h', q) ==>
                 if res.Done? && !s[p] then q > p && Inflated(s, p, h) == Inflated(s, q, h') && StreamFed(s, p) == StreamFed(s, q)
                 else Agrees(Inflated(s, p, h), StreamFed(s, p), res, h', q))
  {
    hide Block, BlockFed, Lsb;
  }

  lemma ValidApart(s: seq<bool>, w: seq<Byte>)
    ensures var o, v := Inflated(s, 0, w), Inflated(s, 0, []);
            && (v.Good? ==> o == Good(w + v.out, v.p))
            && (o.Bad? ==> v.Bad?)
  {
    hide Inflated, Block;
    if Inflated(s, 0, []).Good? {
      InflatedAfter(w, s, 0, []);
      assert w + [] == w;
    }
  }

  lemma HeaderRange()
    ensures Pow2(5) == 32 && Pow2(4) == 16
  {
  }

  /** What the sets of a header contribute to the reference decoder. */
  ghost predicate SetsAt(s: seq<bool>, p: nat, nl: nat, nd: nat, nb: nat) {
    nb <= 19 ==>
      var q := p + 14 + 3 * nb;
      if q > |s| then Codings(s, p) == None && !HeaderFed(s, p)
      else
        var cl := CodeLengthCode(s, p + 14, nb);
        var l := Lengths(cl, s, q, nl + nd, []);
        && (HeaderFed(s, p) <==> LengthsFed(cl, AsksOf(cl, LENGTH_LIMIT), s, q, nl + nd, []))
        && (if !Acceptable(cl) || l.None? || |l.value.0| < nl || !Acceptable(l.value.0[..nl]) then Codings(s, p) == None
            else Codings(s, p) == Some(Coding(l.value.0[..nl], l.value.0[nl..], l.value.1)))
  }

  lemma HeaderParts(s: seq<bool>, p: nat)
    ensures var hlit, hdist, hclen := Number(s, p, 5), Number(s, p + 5, 5), Number(s, p + 10, 4);
            if hlit.None? || hdist.None? || hclen.None? then Codings(s, p) == None
            else SetsAt(s, p, 257 + hlit.value, 1 + hdist.value, 4 + hclen.value)
  {
    hide Number, Lengths, CodeLengthCode, Acceptable, LengthsFed, AsksOf;
  }

  lemma {:induction false} SmallLengths(s: seq<bool>, p: nat, nb: nat)
    requires nb <= 19 && p + 3 * nb <= |s|
    ensures AllBelow(CodeLengthCode(s, p, nb), 8)
  {
    if nb > 0 {
      SmallLengths(s, p, nb - 1);
      LsbBound(s[p + 3 * (nb - 1)..p + 3 * nb]);
      assert Pow2(3) == 8;
    }
  }

  lemma CodeAccepts(lens: seq<nat>, code: int)
    requires (forall i :: 0 <= i < |lens| ==> lens[i] <= BMAX) && RightCode(lens, code)
    ensures code == 0 <==> Acceptable(lens)
  {
    hide Kraft, Pow2;
    KraftOfNothing(lens, BMAX);
  }

  lemma HeaderSizes(s: seq<bool>, p: nat, lit: seq<nat>, dist: seq<nat>, q: nat)
    requires HeaderRead(s, p, lit, dist, q)
    ensures 257 <= |lit| <= 288 && 1 <= |dist| <= 32 && AllBelow(lit, 16) && AllBelow(dist, 16)
  {
  }

  lemma DynamicCodes(s: seq<bool>, p: nat, h: seq<Byte>, lit: seq<nat>, dist: seq<nat>, q: nat)
    requires HeaderRead(s, p, lit, dist, q)
    ensures if Acceptable(lit) then
              && Dynamic(s, p, h) == Codes(lit, dist, s, q, h)
              && (HeaderFed(s, p) ==>
                    DynamicFed(s, p) == Codebook(lit, dist, AsksOf(lit, LITERAL_LIMIT), AsksOf(dist, DISTANCE_LIMIT)).BlockEnd(s, q))
            else Explains(Dynamic(s, p, h), DynamicFed(s, p), h, false)
  {
    hide Acceptable, Codings, Codes, HeaderFed, AsksOf, Fed;
  }

  /** The two sets of code lengths, before they are judged. */
  ghost predicate HeaderRead(s: seq<bool>, p: nat, lit: seq<nat>, dist: seq<nat>, q: nat) {
    && 257 <= |lit| <= 288 && 1 <= |dist| <= 32 && AllBelow(lit, 16) && AllBelow(dist, 16)
    && p <= q <= |s|
    && Codings(s, p) == if Acceptable(lit) then Some(Coding(lit, dist, q)) else None
  }

  ghost predicate ExplainsHeader(s: seq<bool>, p: nat, atEnd: bool) {
    Codings(s, p).None? || (atEnd && !HeaderFed(s, p))
  }

  lemma HeaderExplains(s: seq<bool>, p: nat, h: seq<Byte>, atEnd: bool)
    ensures ExplainsHeader(s, p, atEnd) ==> Explains(Dynamic(s, p, h), DynamicFed(s, p), h, atEnd)
  {
    hide Codes, Codings, HeaderFed, AsksOf, Fed;
  }

  /** The first `j` of the lengths are where the order of sending puts them. */
  ghost predicate Sent(s: seq<bool>, p: nat, j: nat, ll: seq<nat>) {
    && j <= 19 && p + 3 * j <= |s| && |ll| == 19
    && forall i :: 0 <= i < j ==> BORDER[i] < 19 && ll[BORDER[i]] == Lsb(s[p + 3 * i..p + 3 * i + 3])
  }

  lemma NoneSent(s: seq<bool>, p: nat, ll: seq<nat>)
    requires p <= |s| && |ll| == 19
    ensures Sent(s, p, 0, ll)
  {
  }

  lemma OneMoreSent(s: seq<bool>, p: nat, j: nat, ll: seq<nat>, x: nat)
    requires Sent(s, p, j, ll) && j < 19 && p + 3 * j + 3 <= |s| && x == Lsb(s[p + 3 * j..p + 3 * j + 3])
    ensures BORDER[j] < 19 && Sent(s, p, j + 1, ll[BORDER[j] := x])
  {
    hide Lsb;
    BorderDistinct(j);
  }

  /** The lengths that are not sent are zero (lines 877-878). */
  method ZeroRest(ll0: seq<nat>, nb: nat, ghost s: seq<bool>, ghost p: nat) returns (ll: seq<nat>)
    requires Sent(s, p, nb, ll0)
    ensures ll == CodeLengthCode(s, p, nb)
  {
    hide Lsb, CodeLengthCode;
    ll := ll0;
    var j := nb;
    while j < 19
      invariant nb <= j <= 19 && |ll| == 19
      invariant forall i :: 0 <= i < nb ==> BORDER[i] < 19 && ll[BORDER[i]] == Lsb(s[p + 3 * i..p + 3 * i + 3])
      invariant forall i :: nb <= i < j ==> BORDER[i] < 19 && ll[BORDER[i]] == 0
    {
      BorderDistinct(j);
      ll := ll[BORDER[j] := 0];
      j := j + 1;
    }
    CodeLengthsInOrder(s, p, nb, ll);
  }

  ghost predicate AllBelow(ll: seq<nat>, b: nat) { forall i :: 0 <= i < |ll| ==> ll[i] < b }

  /** The length a repeat code repeats. */
  function LastLength(ll: seq<nat>): nat { if ll == [] then 0 else ll[|ll| - 1] }

  lemma RepeatLast(ll: seq<nat>, n: nat, x: nat)
    requires n >= 1
    ensures |ll + Repeat(n, x)| == |ll| + n && LastLength(ll + Repeat(n, x)) == x
    ensures AllBelow(ll, 16) && x < 16 ==> AllBelow(ll + Repeat(n, x), 16)
  {
  }

  lemma LengthEntry(tables: seq<seq<Huft>>, m: nat, cl: seq<nat>, ca: seq<nat>, s: seq<bool>, p: nat)
    requires DecodeLike(tables, m, cl, CODE_LENGTHS, ca) && p <= |s|
    requires var w := Walk(tables, 0, m, s[p..], 0); w.Leaf? && !w.entry.v.Undefined?
    ensures var w, d := Walk(tables, 0, m, s[p..], 0), Decode(cl, s[p..]);
            d.Found? && d.len == w.used > 0 && d.sym < 19 && w.entry.v == Value(d.sym) && Supplied(cl, ca, s, p)
  {
    hide Walk, Decode;
    assert WalksRight(tables, m, cl, CODE_LENGTHS, ca, s[p..]);
  }

  lemma ShortLength(tables: seq<seq<Huft>>, m: nat, cl: seq<nat>, ca: seq<nat>, s: seq<bool>, p: nat)
    requires Tabled(tables, m, cl, CODE_LENGTHS, ca) && !Oversubscribed(cl) && p <= |s|
    requires tables == [] || Walk(tables, 0, m, s[p..], 0).Short?
    ensures !Supplied(cl, ca, s, p)
  {
    hide Walk, Decode, Oversubscribed;
    if tables == [] {
      NothingDecoded(cl, s[p..]);
    } else {
      assert WalksRight(tables, m, cl, CODE_LENGTHS, ca, s[p..]);
    }
  }

  /** One step of the reference reader of code lengths. */
  lemma LengthsStep(cl: seq<nat>, ca: seq<nat>, s: seq<bool>, p: nat, n: nat, ll: seq<nat>)
    requires p <= |s| && |ll| < n && |ca| == |cl|
    ensures var d := Decode(cl, s[p..]);
            var g := Lengths(cl, s, p, n, ll);
            var fed := LengthsFed(cl, ca, s, p, n, ll);
            && (g.Some? ==> g.value.1 >= p)
            && (!d.Found? ==> g == None) && (!Supplied(cl, ca, s, p) ==> !fed)
            && (d.Found? && d.sym < 16 ==>
                  && g == Lengths(cl, s, p + d.len, n, ll + [d.sym])
                  && (Supplied(cl, ca, s, p) ==> fed == LengthsFed(cl, ca, s, p + d.len, n, ll + [d.sym])))
            && (d.Found? && d.sym >= 16 ==>
                  var bits, first := if d.sym == 16 then 2 else if d.sym == 17 then 3 else 7, if d.sym == 18 then 11 else 3;
                  var x := Number(s, p + d.len, bits);
                  if x.None? then g == None
                  else
                    var more := ll + Repeat(first + x.value, if d.sym == 16 then LastLength(ll) else 0);
                    && g == Lengths(cl, s, p + d.len + bits, n, more)
                    && (Supplied(cl, ca, s, p) ==> fed == LengthsFed(cl, ca, s, p + d.len + bits, n, more)))
  {
    hide Decode, Number, Repeat;
  }

  lemma LengthsEnd(cl: seq<nat>, ca: seq<nat>, s: seq<bool>, p: nat, n: nat, ll: seq<nat>)
    requires |ll| >= n && |ca| == |cl|
    ensures Lengths(cl, s, p, n, ll) == if |ll| == n then Some((ll, p)) else None
    ensures LengthsFed(cl, ca, s, p, n, ll)
  {
  }

  lemma TooManyLengths(cl: seq<nat>, s: seq<bool>, p: nat, n: nat, ll: seq<nat>)
    ensures |ll| > n ==> Lengths(cl, s, p, n, ll) == None
  {
  }

  lemma BorderDistinct(j: nat)
    requires j < 19
    ensures |BORDER| == 19 && BORDER[j] < 19 && forall i :: 0 <= i < j ==> BORDER[i] != BORDER[j]
  {
  }

  /** Where each length of the code length code is sent. */
  const UNBORDER: seq<nat> := [3, 17, 15, 13, 11, 9, 7, 5, 4, 6, 8, 10, 12, 14, 16, 18, 0, 1, 2]

  lemma BorderCovers(x: nat)
    requires x < 19
    ensures |BORDER| == 19 && UNBORDER[x] < 19 && BORDER[UNBORDER[x]] == x
  {
  }

  lemma {:induction false} CodeLengthAt(s: seq<bool>, p: nat, nb: nat, i: nat)
    requires nb <= 19 && p + 3 * nb <= |s| && i < 19
    ensures |BORDER| == 19 && BORDER[i] < 19
    ensures CodeLengthCode(s, p, nb)[BORDER[i]] == if i < nb then Lsb(s[p + 3 * i..p + 3 * i + 3]) else 0
    decreases nb
  {
    hide Lsb;
    BorderDistinct(i);
    if nb > 0 {
      CodeLengthAt(s, p, nb - 1, i);
      BorderDistinct(nb - 1);
    }
  }

  lemma CodeLengthsInOrder(s: seq<bool>, p: nat, nb: nat, ll: seq<nat>)
    requires nb <= 19 && p + 3 * nb <= |s| && |ll| == 19
    requires forall i :: 0 <= i < nb ==> BORDER[i] < 19 && ll[BORDER[i]] == Lsb(s[p + 3 * i..p + 3 * i + 3])
    requires forall i :: nb <= i < 19 ==> BORDER[i] < 19 && ll[BORDER[i]] == 0
    ensures ll == CodeLengthCode(s, p, nb)
  {
    hide Lsb, CodeLengthCode;
    forall x | 0 <= x < 19 ensures ll[x] == CodeLengthCode(s, p, nb)[x] {
      BorderCovers(x);
      CodeLengthAt(s, p, nb, UNBORDER[x]);
    }
  }

  /** The lengths of the fixed literal/length code (lines 792-800). */
  method FixedLengths() returns (l: seq<nat>)
    ensures l == FixedLiterals()
  {
    l := [];
    var i := 0;
    while i < 144
      invariant 0 <= i <= 144 && l == Repeat(i, 8)
    {
      l, i := l + [8], i + 1;
    }
    while i < 256
      invariant 144 <= i <= 256 && l == Repeat(144, 8) + Repeat(i - 144, 9)
    {
      l, i := l + [9], i + 1;
    }
    while i < 280
      invariant 256 <= i <= 280 && l == Repeat(144, 8) + Repeat(112, 9) + Repeat(i - 256, 7)
    {
      l, i := l + [7], i + 1;
    }
    while i < 288
      invariant 280 <= i <= 288 && l == Repeat(144, 8) + Repeat(112, 9) + Repeat(24, 7) + Repeat(i - 280, 8)
    {
      l, i := l + [8], i + 1;
    }
  }

  lemma {:induction false} KraftRepeat(a: seq<nat>, n: nat, x: nat)
    requires 1 <= x <= BMAX && forall i :: 0 <= i < |a| ==> a[i] <= BMAX
    ensures forall i :: 0 <= i < |a + Repeat(n, x)| ==> (a + Repeat(n, x))[i] <= BMAX
    ensures Kraft(a + Repeat(n, x), BMAX) == Kraft(a, BMAX) + n * Pow2(BMAX - x)
  {
    hide Pow2;
    if n == 0 {
      assert a + Repeat(n, x) == a;
    } else {
      KraftRepeat(a, n - 1, x);
      var b := a + Repeat(n - 1, x);
      assert a + Repeat(n, x) == b + [x];
      assert (b + [x])[..|b|] == b;
      Distribute(n - 1, 1, Pow2(BMAX - x));
    }
  }

  /** The fixed literal/length code is complete; the distance code is not. */
  lemma FixedSets()
    ensures |FixedLiterals()| == 288 && |FixedDistances()| == 30
    ensures forall i :: 0 <= i < 288 ==> 7 <= FixedLiterals()[i] <= 9
    ensures forall i :: 0 <= i < 30 ==> FixedDistances()[i] == 5
    ensures Kraft(FixedLiterals(), BMAX) == Pow2(BMAX)
    ensures 0 < Kraft(FixedDistances(), BMAX) < Pow2(BMAX)
  {
    hide Kraft;
    var a, b := Repeat(144, 8), Repeat(144, 8) + Repeat(112, 9);
    var c := b + Repeat(24, 7);
    assert [] + a == a && [] + FixedDistances() == Repeat(30, 5);
    KraftRepeat([], 144, 8);
    KraftRepeat(a, 112, 9);
    KraftRepeat(b, 24, 7);
    KraftRepeat(c, 8, 8);
    KraftRepeat([], 30, 5);
    assert Kraft([], BMAX) == 0 by { KraftOfNothing([], BMAX); }
    PowersOfTwo(8);
    PowersOfTwo(7);
    PowersOfTwo(9);
    PowersOfTwo(11);
    TwoToTheSixteen();
  }

  lemma FixedDistanceList()
    ensures FixedDistances() == seq(30, _ => 5)
  {
  }

  lemma FixedCode(code: int)
    requires (forall i :: 0 <= i < |FixedLiterals()| ==> FixedLiterals()[i] <= BMAX) && RightCode(FixedLiterals(), code)
    ensures code == 0
  {
    hide Kraft, Pow2, FixedLiterals;
    FixedSets();
  }

  lemma FixedDistanceCode(code: int)
    requires (forall i :: 0 <= i < |FixedDistances()| ==> FixedDistances()[i] <= BMAX) && RightCode(FixedDistances(), code)
    ensures code <= 1
  {
    hide Kraft, Pow2, FixedDistances;
    FixedSets();
  }

  /** The fields of a stored block. */
  lemma StoredParts(s: seq<bool>, p: nat, h: seq<Byte>)
    ensures var q := ByteBoundary(p);
            var n, c := Number(s, q, 16), Number(s, q + 16, 16);
            if n.None? || c.None? || n.value + c.value != 0xFFFF then Stored(s, p, h) == Bad(h)
            else
              var left := (|s| - (q + 32)) / 8;
              if n.value <= left then
                && Stored(s, p, h) == Good(h + StoredBytes(s, q + 32, n.value), q + 32 + 8 * n.value)
                && StoredFed(s, p) == Some(q + 32 + 8 * n.value)
              else Stored(s, p, h) == Bad(h + StoredBytes(s, q + 32, left))
  {
    hide Number, StoredBytes;
  }

  lemma AgreesWhen(o: Outcome, f: Option<nat>, res: Result, h: seq<Byte>, q: nat)
    requires match res
             case Done => o == Good(h, q) && f == Some(q)
             case Refused(_) => h <= o.out
             case _ => o == Bad(h)
    ensures Agrees(o, f, res, h, q)
  {
  }

  lemma AlignedBits(pos: nat, k: nat)
    requires k <= 8 * pos
    ensures k % 8 <= k && 8 * pos - k + k % 8 == ByteBoundary(8 * pos - k)
  {
  }

  lemma TwoToTheSixteen()
    ensures Pow2(16) == 0x10000
  {
    Pow2Add(8, 8);
    TwoToTheEight();
  }

  lemma StoredNothing(s: seq<bool>, p: nat)
    ensures p <= |s| ==> StoredBytes(s, p, 0) == []
  {
  }

  lemma {:induction false} MoreStored(s: seq<bool>, p: nat, i: nat, b: Byte)
    requires p + 8 * i + 8 <= |s| && b == Lsb(s[p + 8 * i..p + 8 * i + 8])
    ensures StoredBytes(s, p, i + 1) == StoredBytes(s, p, i) + [b]
    decreases i
  {
    hide Lsb;
    if i > 0 {
      MoreStored(s, p + 8, i - 1, b);
    }
  }

  lemma {:induction false} StoredFirst(s: seq<bool>, p: nat, i: nat, n: nat)
    requires i <= n && p + 8 * n <= |s|
    ensures StoredBytes(s, p, i) <= StoredBytes(s, p, n)
    decreases i
  {
    hide Lsb;
    if i > 0 {
      StoredFirst(s, p + 8, i - 1, n - 1);
    }
  }

  /** A failure that the reference decoder shares after the same output `h`, or
      one for want of bits that a look-up asks for. */
  ghost predicate Explains(o: Outcome, f: Option<nat>, h: seq<Byte>, atEnd: bool) {
    if atEnd then h <= o.out && (o.Bad? || f.None?) else o == Bad(h)
  }

  /** How a routine that ends with `res` at bit `q`, when `h` has been decoded,
      agrees with the reference decoder; `f` is where the part ends if every
      look-up in it is fed. */
  ghost predicate Agrees(o: Outcome, f: Option<nat>, res: Result, h: seq<Byte>, q: nat) {
    match res
    case Done => o == Good(h, q) && f == Some(q)
    case Refused(_) => h <= o.out
    case _ => Explains(o, f, h, res.Short())
  }

  /** The window is in order, unless the output routine has just refused it,
      with the code that is returned. */
  ghost predicate Stands(win: Window, res: Result)
    reads win, win.slide
  {
    win.wp <= win.slide.Length && if res.Refused? then win.Refusing(res.code) else win.Valid()
  }

  /** In a compressed block the routine's code is lost: 1 is returned
      (lines 820 and 959-962). */
  ghost predicate StandsCoded(win: Window, res: Result)
    reads win, win.slide
  {
    win.wp <= win.slide.Length && if res.Refused? then win.Refused() && res.code == 1 else win.Valid()
  }

  lemma NotRefused(win: Window, res: Result)
    requires StandsAny(win, res) && !res.Refused?
    ensures win.Valid()
  {
  }

  lemma FailureStands(win: Window)
    requires win.Valid()
    ensures forall code, atEnd :: Stands(win, Failed(code, atEnd)) && StandsCoded(win, Failed(code, atEnd))
  {
  }

  ghost predicate StandsAny(win: Window, res: Result)
    reads win, win.slide
  {
    Stands(win, res) || StandsCoded(win, res)
  }

  lemma StarvedCodes(c: Codebook, s: seq<bool>, p: nat, h: seq<Byte>, atEnd: bool)
    requires p <= |s| && Starved(c, s, p, atEnd)
    ensures Explains(Codes(c.lit, c.dist, s, p, h), c.BlockEnd(s, p), h, atEnd)
  {
    hide NextToken, Copy, TokenFed;
  }

  /** The element at bit `p` is wrong, or else the input ends before the bits
      that one of its look-ups asks for. */
  ghost predicate Starved(c: Codebook, s: seq<bool>, p: nat, atEnd: bool) {
    c.Valid() && p <= |s| && (c.Next(s, p).Wrong? || (atEnd && !c.Feeds(s, p)))
  }

  lemma WrongStarves(c: Codebook, s: seq<bool>, p: nat)
    requires c.Valid() && p <= |s| && NextToken(c.lit, c.dist, s, p).Wrong?
    ensures Starved(c, s, p, false)
  {
  }

  lemma ShortLiteral(tl: seq<seq<Huft>>, bl: nat, c: Codebook, s: seq<bool>, p: nat)
    requires c.Valid() && Tabled(tl, bl, c.lit, LITERALS, c.la) && !Oversubscribed(c.lit) && p <= |s|
    requires tl == [] || Walk(tl, 0, bl, s[p..], 0).Short?
    ensures Starved(c, s, p, true)
  {
    hide Walk, Decode, Oversubscribed, NextToken;
    if tl == [] {
      NothingDecoded(c.lit, s[p..]);
    } else {
      assert WalksRight(tl, bl, c.lit, LITERALS, c.la, s[p..]);
    }
  }

  lemma ShortDistance(td: seq<seq<Huft>>, bd: nat, dist: seq<nat>, da: seq<nat>, s: seq<bool>, p: nat)
    requires Tabled(td, bd, dist, DISTANCES, da) && p <= |s|
    requires td == [] || Walk(td, 0, bd, s[p..], 0).Short?
    ensures MatchDistance(dist, s, p) == None || !Supplied(dist, da, s, p)
  {
    hide Walk, Decode, Oversubscribed;
    if td != [] {
      assert WalksRight(td, bd, dist, DISTANCES, da, s[p..]);
    } else if !Oversubscribed(dist) {
      NothingDecoded(dist, s[p..]);
    }
  }

  lemma InvalidLiteral(tl: seq<seq<Huft>>, bl: nat, c: Codebook, s: seq<bool>, p: nat)
    requires c.Valid() && tl != [] && Tabled(tl, bl, c.lit, LITERALS, c.la) && p <= |s|
    requires var w := Walk(tl, 0, bl, s[p..], 0); w.Leaf? && w.entry.e == UNUSED
    ensures Starved(c, s, p, false)
  {
    hide Walk, Decode;
    assert WalksRight(tl, bl, c.lit, LITERALS, c.la, s[p..]);
    var d := Decode(c.lit, s[p..]);
    if d.Found? && END_OF_BLOCK < d.sym <= LAST_LENGTH {
      LengthRow(d.sym - 257);
    }
  }

  lemma InvalidDistance(tables: seq<seq<Huft>>, m: nat, dist: seq<nat>, da: seq<nat>, s: seq<bool>)
    requires DecodeLike(tables, m, dist, DISTANCES, da)
    requires var w := Walk(tables, 0, m, s, 0); w.Leaf? && w.entry.e == UNUSED
    ensures !Decode(dist, s).Found?
  {
    hide Walk, Decode;
    assert WalksRight(tables, m, dist, DISTANCES, da, s);
    var d := Decode(dist, s);
    if d.Found? && d.sym <= LAST_DISTANCE {
      DistanceRow(d.sym);
    }
  }

  /** At end-of-block no bit beyond its code has been asked for. */
  lemma EndAsks(tl: seq<seq<Huft>>, bl: nat, c: Codebook, s: seq<bool>, p: nat)
    requires c.Valid() && tl != [] && Tabled(tl, bl, c.lit, LITERALS, c.la) && p <= |s|
    requires var d := Decode(c.lit, s[p..]); d.Found? && d.sym == END_OF_BLOCK
    requires Walk(tl, 0, bl, s[p..], 0).Leaf?
    requires Modest(c.lit, c.la, OVERHANG)
    ensures Walk(tl, 0, bl, s[p..], 0).asked == Decode(c.lit, s[p..]).len
  {
    hide Walk, DecodeFrom, Code;
    assert WalksRight(tl, bl, c.lit, LITERALS, c.la, s[p..]);
  }

  /** The two parts of a distance. */
  lemma DistanceParts(dist: seq<nat>, s: seq<bool>, p: nat, t: Huft)
    requires p <= |s| && !Oversubscribed(dist)
    requires var d := Decode(dist, s[p..]); d.Found? ==> IsDistanceEntry(t, d.sym)
    ensures var d := Decode(dist, s[p..]);
            if !d.Found? then MatchDistance(dist, s, p) == None
            else
              && t.v.Value?
              && var x := Number(s, p + d.len, t.e);
                 MatchDistance(dist, s, p) == if x.None? then None else Some((t.v.n + x.value, p + d.len + t.e))
  {
    hide Decode, Number, Oversubscribed;
  }

  /** What a distance entry and its extra bits stand for. */
  lemma DistanceEntry(tables: seq<seq<Huft>>, m: nat, dist: seq<nat>, da: seq<nat>, s: seq<bool>, p: nat)
    requires p <= |s| && |tables| > 0 && DecodeLike(tables, m, dist, DISTANCES, da) && !Oversubscribed(dist)
    requires var w := Walk(tables, 0, m, s[p..], 0); w.Leaf? && w.entry.e != UNUSED && !w.entry.v.Undefined?
    ensures var w := Walk(tables, 0, m, s[p..], 0);
            var x := Number(s, p + w.used, w.entry.e);
            && w.entry.v.Value? && Supplied(dist, da, s, p)
            && MatchDistance(dist, s, p) == (if x.None? then None else Some((w.entry.v.n + x.value, p + w.used + w.entry.e)))
            && (x.Some? ==> 1 <= w.entry.v.n + x.value <= WSIZE)
  {
    hide Walk, Lsb, Pow2, DecodeLike, SymbolEntry, Decode, MatchDistance, Number, Oversubscribed, IsDistanceEntry, Supplied;
    var w, d := Walk(tables, 0, m, s[p..], 0), Decode(dist, s[p..]);
    EntryIsSymbol(tables, m, dist, DISTANCES, da, s, p);
    DistanceMeaning(d.sym, w.entry);
    DistanceParts(dist, s, p, w.entry);
    ExtraBits(s, p + w.used, w.entry.e);
    var x := Number(s, p + w.used, w.entry.e);
    if x.Some? {
      DistanceBound(d.sym, w.entry, x.value);
    }
  }

  lemma ExtraBits(s: seq<bool>, p: nat, n: nat)
    ensures Number(s, p, n).Some? ==> Number(s, p, n).value < Pow2(n)
  {
    hide Lsb, Pow2;
    if p + n <= |s| {
      LsbBound(s[p..p + n]);
    }
  }

  lemma LengthParts(t: Huft, sym: nat, s: seq<bool>, p: nat)
    requires IsLengthEntry(t, sym)
    ensures t.v.Value? && t.v.n >= 3 && sym > END_OF_BLOCK
    ensures MatchLength(sym, s, p) == if Number(s, p, t.e).None? then None else Some((t.v.n + Number(s, p, t.e).value, p + t.e))
  {
    hide Number;
  }

  /** A match is read in three parts; its end bounds where each one starts. */
  lemma MatchParts(lit: seq<nat>, dist: seq<nat>, s: seq<bool>, p: nat)
    requires p <= |s| && Decode(lit, s[p..]).Found? && Decode(lit, s[p..]).sym > END_OF_BLOCK
    ensures var d, t := Decode(lit, s[p..]), NextToken(lit, dist, s, p);
            var l := MatchLength(d.sym, s, p + d.len);
            if l.None? then t.Wrong?
            else if MatchDistance(dist, s, l.value.1).None? then t.Wrong?
            else t.Match? && t.q >= l.value.1
  {
    hide Decode, Lsb;
  }

  lemma LengthStarved(c: Codebook, s: seq<bool>, p: nat)
    requires c.Valid() && p <= |s| && Decode(c.lit, s[p..]).Found? && Decode(c.lit, s[p..]).sym > END_OF_BLOCK
    requires MatchLength(Decode(c.lit, s[p..]).sym, s, p + Decode(c.lit, s[p..]).len) == None
    ensures Starved(c, s, p, true)
  {
    hide Decode, MatchLength, MatchDistance, NextToken;
    MatchParts(c.lit, c.dist, s, p);
  }

  lemma DistanceStarved(c: Codebook, s: seq<bool>, p: nat, n: nat, q: nat, short: bool)
    requires c.Valid() && p <= |s| && Decode(c.lit, s[p..]).Found? && Decode(c.lit, s[p..]).sym > END_OF_BLOCK && q <= |s|
    requires MatchLength(Decode(c.lit, s[p..]).sym, s, p + Decode(c.lit, s[p..]).len) == Some((n, q))
    requires MatchDistance(c.dist, s, q) == None || (short && !Supplied(c.dist, c.da, s, q))
    ensures Starved(c, s, p, short)
  {
    hide Decode, MatchLength, MatchDistance, NextToken, Supplied;
    MatchParts(c.lit, c.dist, s, p);
  }

  lemma LiteralAfter(c: Codebook, s: seq<bool>, p: nat, h: seq<Byte>)
    requires c.Valid() && p <= |s| && Decode(c.lit, s[p..]).Found? && Decode(c.lit, s[p..]).len > 0 && Supplied(c.lit, c.la, s, p)
    ensures var d := Decode(c.lit, s[p..]);
            d.sym < 256 ==> After(c, s, p, h, true, p + d.len, h + [d.sym])
  {
    hide Decode, Supplied;
  }

  lemma EndAfter(c: Codebook, s: seq<bool>, p: nat, h: seq<Byte>)
    requires c.Valid() && p <= |s| && Decode(c.lit, s[p..]).Found? && Decode(c.lit, s[p..]).len > 0 && Supplied(c.lit, c.la, s, p)
    ensures var d := Decode(c.lit, s[p..]);
            d.sym == END_OF_BLOCK ==> After(c, s, p, h, false, p + d.len, h)
  {
    hide Decode, Supplied;
  }

  lemma MatchToken(c: Codebook, s: seq<bool>, p: nat, n: nat, q: nat, d: nat, q': nat)
    requires c.Valid() && p <= |s| && Decode(c.lit, s[p..]).Found? && q <= |s| && Supplied(c.lit, c.la, s, p)
    requires MatchLength(Decode(c.lit, s[p..]).sym, s, p + Decode(c.lit, s[p..]).len) == Some((n, q))
    requires MatchDistance(c.dist, s, q) == Some((d, q')) && Supplied(c.dist, c.da, s, q)
    ensures c.Next(s, p) == Match(n, d, q') && c.Feeds(s, p)
  {
    hide Decode, Supplied;
    assert Decode(c.lit, s[p..]).sym > END_OF_BLOCK;
  }

  lemma MatchAfter(c: Codebook, s: seq<bool>, p: nat, h: seq<Byte>, n: nat, d: nat, q: nat)
    requires c.Valid() && p <= |s| && c.Next(s, p) == Match(n, d, q) && c.Feeds(s, p) && 1 <= d <= |h|
    ensures After(c, s, p, h, true, q, Copy(h, n, d))
  {
    hide NextToken, Copy, TokenFed;
  }

  /** One element takes the reference decoder from (p, h) to (q, h'). */
  ghost predicate After(c: Codebook, s: seq<bool>, p: nat, h: seq<Byte>, more: bool, q: nat, h': seq<Byte>) {
    && c.Valid() && p < q <= |s|
    && if more then Codes(c.lit, c.dist, s, p, h) == Codes(c.lit, c.dist, s, q, h') && c.BlockEnd(s, p) == c.BlockEnd(s, q)
       else Codes(c.lit, c.dist, s, p, h) == Good(h', q) && c.BlockEnd(s, p) == Some(q)
  }
}
