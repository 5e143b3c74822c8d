/** What the symbols of the coded data stand for (sections 3.2.5 to 3.2.7 of RFC
    1951), said without the tables of inflate.c. */
module Alphabets {
  import opened Common
  import opened Bits
  import opened Canonical
  import opened Deflate
  import opened FixedBlocks
  import opened Frugality
  import opened LateStream
  import opened HuftSizes
  import opened LookAhead
  import Inflate
  import SlidingWindow

  // ---------------------------------------------------------------- lengths and distances

  /** The ranges of values of symbols `lo` to `hi` follow each other without a
      gap, from `first` on. */
  ghost predicate Adjoining(base: seq<nat>, extra: seq<nat>, hi: nat, first: nat) {
    && hi < |base| && hi < |extra| && base[0] == first
    && forall i :: 0 <= i < hi ==> base[i + 1] == base[i] + Pow2(extra[i])
  }

  /** Every value of the ranges belongs to one symbol and some extra bits. */
  lemma InRange(base: seq<nat>, extra: seq<nat>, hi: nat, first: nat, n: nat) returns (i: nat)
    requires Adjoining(base, extra, hi, first) && first <= n < base[hi] + Pow2(extra[hi])
    ensures i <= hi && base[i] <= n < base[i] + Pow2(extra[i])
  {
    i := 0;
    while n >= base[i] + Pow2(extra[i])
      invariant i <= hi && base[i] <= n
      decreases hi - i
    {
      i := i + 1;
    }
  }

  /** Greater symbols stand for greater values. */
  lemma {:induction false} RangeOrder(base: seq<nat>, extra: seq<nat>, hi: nat, first: nat, i: nat, x: nat, j: nat, y: nat)
    requires Adjoining(base, extra, hi, first) && i < j <= hi && x < Pow2(extra[i])
    ensures base[i] + x < base[j] + y
  {
    if i + 1 < j {
      RangeOrder(base, extra, hi, first, i, x, j - 1, 0);
    }
  }

  /** Length symbols 257 to 284: the first eight have no extra bits, then each
      four have one more; they start at 3 and end at 258. The last one, 285, is
      258 once more. */
  lemma LengthTables()
    ensures |LENGTH_BASE| >= 29 && |LENGTH_EXTRA| >= 29 && Adjoining(LENGTH_BASE, LENGTH_EXTRA, 27, 3)
    ensures forall i :: 0 <= i < 28 ==> LENGTH_EXTRA[i] == if i < 8 then 0 else (i - 4) / 4
    ensures LENGTH_BASE[27] + Pow2(LENGTH_EXTRA[27]) == 259 && LENGTH_BASE[28] == 258 && LENGTH_EXTRA[28] == 0
  {
    hide Pow2;
    PowersUpTo13();
  }

  /** Distance symbols 0 to 29: no extra bits for the first two, then one more for
      each two; from 1 to 32768. */
  lemma DistanceTables()
    ensures |DISTANCE_BASE| == |DISTANCE_EXTRA| == 30 && Adjoining(DISTANCE_BASE, DISTANCE_EXTRA, 29, 1)
    ensures forall i :: 0 <= i < 30 ==> DISTANCE_EXTRA[i] == if i < 2 then 0 else i / 2 - 1
    ensures DISTANCE_BASE[29] == 24577 && DISTANCE_BASE[29] + Pow2(DISTANCE_EXTRA[29]) - 1 == 32768
  {
    hide Pow2;
    PowersUpTo13();
  }

  lemma PowersUpTo13()
    ensures Pow2(0) == 1 && Pow2(1) == 2 && Pow2(2) == 4 && Pow2(3) == 8 && Pow2(4) == 16 && Pow2(5) == 32 && Pow2(6) == 64
    ensures Pow2(7) == 128 && Pow2(8) == 256 && Pow2(9) == 512 && Pow2(10) == 1024
    ensures Pow2(11) == 2048 && Pow2(12) == 4096 && Pow2(13) == 8192
  {
    Powers();
    assert Pow2(11) == 2 * Pow2(10) && Pow2(12) == 2 * Pow2(11) && Pow2(13) == 2 * Pow2(12);
  }

  /** Every length from 3 to 258 can be sent, and is read as sent. */
  lemma LengthSent(n: nat, s: seq<bool>, p: nat) returns (sym: nat, x: nat)
    requires 3 <= n <= 258
    ensures 257 <= sym <= 284 && sym - 257 < |LENGTH_EXTRA| && x < Pow2(LENGTH_EXTRA[sym - 257])
    ensures var k := LENGTH_EXTRA[sym - 257];
            p + k <= |s| && s[p..p + k] == BitsOf(x, k) ==> MatchLength(sym, s, p) == Some((n, p + k))
  {
    hide Pow2, Lsb, BitsOf;
    LengthTables();
    var i := InRange(LENGTH_BASE, LENGTH_EXTRA, 27, 3, n);
    sym, x := 257 + i, n - LENGTH_BASE[i];
    LsbBitsOf(x, LENGTH_EXTRA[i]);
  }

  /** What a length symbol is read as lies in its range: symbols in order stand
      for lengths in order, but for the 258 that two symbols can stand for. */
  lemma LengthOrder(sym: nat, s: seq<bool>, p: nat, sym': nat, s': seq<bool>, p': nat)
    requires sym < sym' && MatchLength(sym, s, p).Some? && MatchLength(sym', s', p').Some?
    ensures var n, n' := MatchLength(sym, s, p).value.0, MatchLength(sym', s', p').value.0;
            3 <= n <= n' <= 258 && (n < n' || (sym == 284 && sym' == 285 && n == 258))
  {
    hide Pow2, Lsb;
    LengthTables();
    var i, j := sym - 257, sym' - 257;
    LsbBound(s[p..p + LENGTH_EXTRA[i]]);
    LsbBound(s'[p'..p' + LENGTH_EXTRA[j]]);
    var x := MatchLength(sym, s, p).value.0 - LENGTH_BASE[i];
    if i > 0 {
      RangeOrder(LENGTH_BASE, LENGTH_EXTRA, 27, 3, 0, 0, i, 0);
    }
    if i < 27 {
      RangeOrder(LENGTH_BASE, LENGTH_EXTRA, 27, 3, i, x, 27, 0);
    }
    if j < 28 {
      RangeOrder(LENGTH_BASE, LENGTH_EXTRA, 27, 3, i, x, j, MatchLength(sym', s', p').value.0 - LENGTH_BASE[j]);
      if j < 27 {
        RangeOrder(LENGTH_BASE, LENGTH_EXTRA, 27, 3, j, MatchLength(sym', s', p').value.0 - LENGTH_BASE[j], 27, 0);
      }
    } else {
      PowersUpTo13();
    }
  }

  /** Every distance from 1 to 32768 can be sent, and is read as sent. */
  lemma DistanceSent(dist: seq<nat>, n: nat, s: seq<bool>, p: nat) returns (d: nat, x: nat)
    requires 1 <= n <= 32768 && Codable(dist)
    ensures d < 30 && |DISTANCE_EXTRA| == 30 && x < Pow2(DISTANCE_EXTRA[d])
    ensures Coded(dist, d) ==>
              var q, k := p + dist[d], DISTANCE_EXTRA[d];
              q + k <= |s| && s[p..q] == CodeBits(dist, d) && s[q..q + k] == BitsOf(x, k) ==>
                MatchDistance(dist, s, p) == Some((n, q + k))
  {
    hide Pow2, Lsb, BitsOf, CodeBits, Kraft, Decode;
    DistanceTables();
    d := InRange(DISTANCE_BASE, DISTANCE_EXTRA, 29, 1, n);
    x := n - DISTANCE_BASE[d];
    LsbBitsOf(x, DISTANCE_EXTRA[d]);
    if Coded(dist, d) && p + dist[d] + DISTANCE_EXTRA[d] <= |s| && s[p..p + dist[d]] == CodeBits(dist, d) {
      DecodeOfBits(dist, s, p, d);
    }
  }

  // ---------------------------------------------------------------- code lengths

  /** The lengths of the code length code are sent in this order: 16, 17, 18, 0,
      and then by turns upwards from 8 and downwards from 7. */
  lemma BorderOrder()
    ensures |BORDER| == 19 && BORDER[0] == 16 && BORDER[1] == 17 && BORDER[2] == 18 && BORDER[3] == 0
    ensures forall i :: 0 <= i < 8 ==> BORDER[4 + 2 * i] == 8 + i
    ensures forall i :: 0 <= i < 7 ==> BORDER[5 + 2 * i] == 7 - i
  {
    forall i | 0 <= i < 8
      ensures BORDER[4 + 2 * i] == 8 + i
    {
    }
    forall i | 0 <= i < 7
      ensures BORDER[5 + 2 * i] == 7 - i
    {
    }
  }

  /** Symbol 16 stands for 3 to 6 more of the last length, 17 for 3 to 10 zeros,
      18 for 11 to 138. */
  lemma RepeatsSent(ll: seq<nat>, n: nat)
    ensures ll != [] && 3 <= n <= 6 ==> n - 3 < Pow2(ExtraOf(16)) && Expanded(ll, Sent(16, n - 3)) == ll + Repeat(n, ll[|ll| - 1])
    ensures 3 <= n <= 10 ==> n - 3 < Pow2(ExtraOf(17)) && Expanded(ll, Sent(17, n - 3)) == ll + Repeat(n, 0)
    ensures 11 <= n <= 138 ==> n - 11 < Pow2(ExtraOf(18)) && Expanded(ll, Sent(18, n - 11)) == ll + Repeat(n, 0)
    ensures Pow2(ExtraOf(16)) == 4 && Pow2(ExtraOf(17)) == 8 && Pow2(ExtraOf(18)) == 128
  {
    PowersUpTo13();
  }

  // ---------------------------------------------------------------- the fixed codes

  /** The fixed codes are those of the table in section 3.2.6 of RFC 1951. */
  lemma FixedCodes(sym: nat)
    ensures |FixedLiterals()| == 288 && |FixedDistances()| == 30
    ensures sym < 144 ==> FixedLiterals()[sym] == 8 && Code(FixedLiterals(), sym) == 0x30 + sym
    ensures 144 <= sym < 256 ==> FixedLiterals()[sym] == 9 && Code(FixedLiterals(), sym) == 0x190 + (sym - 144)
    ensures 256 <= sym < 280 ==> FixedLiterals()[sym] == 7 && Code(FixedLiterals(), sym) == sym - 256
    ensures 280 <= sym < 288 ==> FixedLiterals()[sym] == 8 && Code(FixedLiterals(), sym) == 0xc0 + (sym - 280)
    ensures sym < 30 ==> FixedDistances()[sym] == 5 && Code(FixedDistances(), sym) == sym
  {
    hide CountLen, FirstCode;
    if sym < 288 {
      FixedFirst();
      FixedRank(sym);
    }
    if sym < 30 {
      FixedFirst();
      DistanceRank(sym);
    }
  }

  lemma FixedFirst()
    ensures FirstCode(FixedLiterals(), 7) == 0 && FirstCode(FixedLiterals(), 8) == 0x30 && FirstCode(FixedLiterals(), 9) == 0x190
    ensures FirstCode(FixedDistances(), 5) == 0
  {
    hide CountLen, FixedLiterals, FixedDistances;
    forall j | 1 <= j < 7 ensures CountLen(FixedLiterals(), j) == 0 { FixedCounts(j); }
    NoneBefore(FixedLiterals(), 7);
    FixedCounts(7);
    FixedCounts(8);
    forall j | 1 <= j < 5 ensures CountLen(FixedDistances(), j) == 0 { FixedCounts(j); }
    NoneBefore(FixedDistances(), 5);
  }

  /** Below the shortest length the first code is zero. */
  lemma {:induction false} NoneBefore(lens: seq<nat>, k: nat)
    requires forall j :: 1 <= j < k ==> CountLen(lens, j) == 0
    ensures FirstCode(lens, k) == 0
  {
    hide CountLen;
    if k > 1 {
      NoneBefore(lens, k - 1);
    }
  }

  lemma FixedRank(sym: nat)
    requires sym < 288
    ensures |FixedLiterals()| == 288
    ensures CountLen(FixedLiterals()[..sym], FixedLiterals()[sym])
              == if sym < 144 then sym else if sym < 256 then sym - 144 else if sym < 280 then sym - 256 else 144 + sym - 280
  {
    hide CountLen;
    var len := FixedLiterals()[sym];
    var a := Repeat(144, 8);
    var b := a + Repeat(112, 9);
    var c := b + Repeat(24, 7);
    CountNone(len);
    CountRepeat([], 144, 8, len);
    CountRepeat(a, 112, 9, len);
    CountRepeat(b, 24, 7, len);
    assert [] + a == a;
    if sym < 144 {
      assert FixedLiterals()[..sym] == [] + Repeat(sym, 8);
      CountRepeat([], sym, 8, len);
    } else if sym < 256 {
      assert FixedLiterals()[..sym] == a + Repeat(sym - 144, 9);
      CountRepeat(a, sym - 144, 9, len);
    } else if sym < 280 {
      assert FixedLiterals()[..sym] == b + Repeat(sym - 256, 7);
      CountRepeat(b, sym - 256, 7, len);
    } else {
      assert FixedLiterals()[..sym] == c + Repeat(sym - 280, 8);
      CountRepeat(c, sym - 280, 8, len);
    }
  }

  lemma DistanceRank(d: nat)
    requires d < 30
    ensures |FixedDistances()| == 30 && CountLen(FixedDistances()[..d], FixedDistances()[d]) == d
  {
    hide CountLen;
    assert FixedDistances()[..d] == [] + Repeat(d, 5);
    CountNone(5);
    CountRepeat([], d, 5, 5);
  }

  // ---------------------------------------------------------------- one whole stream

  /** A final block with the fixed codes: a literal, the length and distance
      symbols 257 and 0, end-of-block, and two bits to fill the last byte. */
  function Runs(b: Byte): seq<bool> {
    [true, true, false] + MsbBitsOf(0x30 + b, 8) + MsbBitsOf(1, 7) + MsbBitsOf(0, 5) + MsbBitsOf(0, 7) + [false, false]
  }

  /** It stands for the literal and three more of it. */
  lemma RunsOut(b: Byte)
    requires b < 144
    ensures |Runs(b)| == 32 && Inflated(Runs(b), 0, []) == Good([b, b, b, b], 30)
  {
    hide Codes, FixedLiterals, FixedDistances, NextToken, Msb, MsbBitsOf;
    var s := Runs(b);
    assert Lsb(s[1..3]) == 1 by { assert s[1..3] == [true, false]; assert Lsb([true, false]) == 1 + 2 * Lsb([false]); }
    RunsTokens(b);
    assert Codes(FixedLiterals(), FixedDistances(), s, 3, []) == Good([b, b, b, b], 30) by { RunsCodes(b); }
    assert Block(1, s, 3, []) == Good([b, b, b, b], 30);
  }

  lemma RunsCodes(b: Byte)
    requires b < 144
    ensures Codes(FixedLiterals(), FixedDistances(), Runs(b), 3, []) == Good([b, b, b, b], 30)
  {
    hide FixedLiterals, FixedDistances, NextToken, Msb, MsbBitsOf;
    RunsTokens(b);
    var lit, dist, s := FixedLiterals(), FixedDistances(), Runs(b);
    assert Copy([b], 3, 1) == [b, b, b, b];
    assert [] + [b] == [b];
    assert Codes(lit, dist, s, 23, [b, b, b, b]) == Good([b, b, b, b], 30);
    assert Codes(lit, dist, s, 11, [b]) == Codes(lit, dist, s, 23, [b, b, b, b]);
    assert Codes(lit, dist, s, 3, []) == Codes(lit, dist, s, 11, [b]);
  }

  lemma RunsTokens(b: Byte)
    requires b < 144
    ensures |Runs(b)| == 32
    ensures NextToken(FixedLiterals(), FixedDistances(), Runs(b), 3) == Literal(b, 11)
    ensures NextToken(FixedLiterals(), FixedDistances(), Runs(b), 11) == Match(3, 1, 23)
    ensures NextToken(FixedLiterals(), FixedDistances(), Runs(b), 23) == End(30)
  {
    hide FixedLiterals, FixedDistances, Msb, MsbBitsOf, Decode, Oversubscribed, Code;
    var lit, dist, s := FixedLiterals(), FixedDistances(), Runs(b);
    PowersUpTo13();
    FixedAt(s, 3, b, 8);
    FixedAt(s, 11, 257, 7);
    FixedAt(s, 23, 256, 7);
    DistanceAt5(s, 18);
    assert !Oversubscribed(dist) by { FixedFits(); }
    assert Lsb([]) == 0 && s[18..18] == [] && s[23..23] == [];
  }

  lemma FixedFits()
    ensures !Oversubscribed(FixedDistances())
  {
    hide Pow2, Kraft;
    NoKraft(BMAX);
    assert [] + FixedDistances() == FixedDistances();
    Inflate.KraftRepeat([], 30, 5);
    Inflate.PowersOfTwo(11);
    Inflate.TwoToTheSixteen();
  }

  lemma FixedAt(s: seq<bool>, p: nat, sym: nat, len: nat)
    requires (sym < 144 && len == 8 && p + 8 <= |s| && s[p..p + 8] == MsbBitsOf(0x30 + sym, 8))
          || (256 <= sym < 280 && len == 7 && p + 7 <= |s| && s[p..p + 7] == MsbBitsOf(sym - 256, 7))
    ensures Decode(FixedLiterals(), s[p..]) == Found(sym, len)
  {
    hide FixedLiterals, Decode, Code, MsbBitsOf;
    var lit := FixedLiterals();
    FixedCodes(sym);
    PowersUpTo13();
    MsbOfBits(if sym < 144 then 0x30 + sym else sym - 256, len);
    assert s[p..][..len] == s[p..p + len];
    forall i | 0 <= i < |lit|
      ensures lit[i] <= BMAX
    {
      FixedCodes(i);
    }
    DecodeOfCode(lit, s[p..], sym);
  }

  lemma DistanceAt5(s: seq<bool>, p: nat)
    requires p + 5 <= |s| && s[p..p + 5] == MsbBitsOf(0, 5)
    ensures Decode(FixedDistances(), s[p..]) == Found(0, 5)
  {
    hide FixedDistances, Decode, Code, MsbBitsOf;
    FixedCodes(0);
    PowersUpTo13();
    MsbOfBits(0, 5);
    assert s[p..][..5] == s[p..p + 5];
    forall i | 0 <= i < |FixedDistances()|
      ensures FixedDistances()[i] <= BMAX
    {
      FixedCodes(i);
    }
    DecodeOfCode(FixedDistances(), s[p..], 0);
  }

  lemma RunsFed(b: Byte)
    requires b < 144
    ensures StreamFed(Runs(b), 0) == Some(30)
  {
    hide Codes, FixedLiterals, FixedDistances, NextToken, Msb, MsbBitsOf, BlockFed;
    var s := Runs(b);
    assert Lsb(s[1..3]) == 1 by { assert s[1..3] == [true, false]; assert Lsb([true, false]) == 1 + 2 * Lsb([false]); }
    RunsTokens(b);
    RunsCodes(b);
    NeverStarves(1, s, 3, []);
  }

  /** And inflate.c decodes it to that. */
  method RunsDecoded(b: Byte, input: seq<Byte>, win: SlidingWindow.Window, garbage: seq<nat>) returns (res: Inflate.Result)
    requires b < 144 && Inflate.Stream(input) == Runs(b) && |garbage| == 19
    requires win.Valid() && win.flushed == [] && win.wp == 0 && forall n :: win.sink(n) == 0
    modifies win, win.slide
    ensures res.Done? && win.flushed == [b, b, b, b]
  {
    hide Runs, Inflated, StreamFed, Inflate.Stream, AsksOf;
    RunsOut(b);
    RunsFed(b);
    var reader := new Inflate.Reader(input);
    var inflater := new Inflate.Inflater(reader, win, garbage);
    res := inflater.Xinflate();
  }
}
