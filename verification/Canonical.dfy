/** Canonical Huffman codes as section 3.2.2 of RFC 1951 defines them, and the
    decoder that reads one bit at a time. A code set is given by the list of
    code lengths of its symbols; length 0 means the symbol has no code. */
module Canonical {
  import opened Bits

  const BMAX := 16

  /** Number of symbols whose code has length `len`. */
  function CountLen(lens: seq<nat>, len: nat): nat {
    if lens == [] then 0
    else CountLen(lens[..|lens| - 1], len) + (if lens[|lens| - 1] == len then 1 else 0)
  }

  /** Step 2: the numerically smallest code of each length. */
  function FirstCode(lens: seq<nat>, len: nat): nat {
    if len <= 1 then 0 else 2 * (FirstCode(lens, len - 1) + CountLen(lens, len - 1))
  }

  /** Step 3: codes of one length are consecutive, in symbol order. */
  function Code(lens: seq<nat>, sym: nat): nat
    requires sym < |lens|
  {
    FirstCode(lens, lens[sym]) + CountLen(lens[..sym], lens[sym])
  }

  /** `bits`, first bit most significant, is the code of `sym`. */
  predicate CodeOf(lens: seq<nat>, sym: nat, bits: seq<bool>) {
    sym < |lens| && lens[sym] == |bits| && bits != [] && Msb(bits) == Code(lens, sym)
  }

  datatype Decoded = Found(sym: nat, len: nat) | NoCode | OutOfBits

  /** Reads one more bit at a time until the bits read are some symbol's code. */
  ghost function DecodeFrom(lens: seq<nat>, s: seq<bool>, len: nat): (d: Decoded)
    ensures d.Found? ==> d.len <= |s| && CodeOf(lens, d.sym, s[..d.len])
    decreases BMAX + 1 - len
  {
    if len > BMAX then NoCode
    else if len > |s| then OutOfBits
    else if exists sym: nat :: CodeOf(lens, sym, s[..len]) then
      var sym: nat :| CodeOf(lens, sym, s[..len]);
      Found(sym, len)
    else DecodeFrom(lens, s, len + 1)
  }

  ghost function Decode(lens: seq<nat>, s: seq<bool>): (d: Decoded)
    ensures d.Found? ==> d.len <= |s| && CodeOf(lens, d.sym, s[..d.len])
  {
    DecodeFrom(lens, s, 1)
  }

  /** Kraft sum of the non-zero lengths, in units of 2^-g. */
  function Kraft(lens: seq<nat>, g: nat): nat
    requires forall s :: 0 <= s < |lens| ==> lens[s] <= g
  {
    if lens == [] then 0
    else
      var n := |lens| - 1;
      assert lens[n] <= g;
      Kraft(lens[..n], g) + (if lens[n] == 0 then 0 else Pow2(g - lens[n]))
  }

  /** The counts of each length, as a table indexed by length. */
  ghost predicate Counts(lens: seq<nat>, c: seq<nat>) {
    |c| == BMAX + 1 && forall len :: 0 <= len <= BMAX ==> c[len] == CountLen(lens, len)
  }

  /** Units of 2^-g taken by the codes shorter than `k`. */
  function Base(c: seq<nat>, k: nat, g: nat): nat
    requires k <= |c| && k <= g + 1
    decreases k
  {
    if k <= 1 then 0 else Base(c, k - 1, g) + c[k - 1] * Pow2(g + 1 - k)
  }

  /** Number of codes shorter than `k`. */
  function Offset(c: seq<nat>, k: nat): nat
    requires k <= |c|
  {
    if k <= 1 then 0 else Offset(c, k - 1) + c[k - 1]
  }

  /** Left end of the interval of the `r`-th code of length `k`. */
  function Start(c: seq<nat>, k: nat, r: nat, g: nat): nat
    requires k <= |c| && k <= g
  {
    if r == 0 then Base(c, k, g) else Start(c, k, r - 1, g) + Pow2(g - k)
  }

  lemma {:induction false} StartIsProduct(c: seq<nat>, k: nat, r: nat, g: nat)
    requires k <= |c| && k <= g
    ensures Start(c, k, r, g) == Base(c, k, g) + r * Pow2(g - k)
  {
    if r != 0 {
      StartIsProduct(c, k, r - 1, g);
      Distribute(r - 1, 1, Pow2(g - k));
    }
  }

  lemma {:induction false} OffsetMonotone(c: seq<nat>, j: nat, k: nat)
    requires j < k <= |c|
    ensures j > 0 ==> Offset(c, j) + c[j] <= Offset(c, k)
    ensures Offset(c, j) <= Offset(c, k)
  {
    if j + 1 < k {
      OffsetMonotone(c, j, k - 1);
    }
  }

  lemma BaseStep(c: seq<nat>, k: nat, g: nat)
    requires 1 <= k < |c| && k <= g
    ensures Base(c, k + 1, g) == Base(c, k, g) + c[k] * Pow2(g - k)
  {
  }

  lemma {:induction false} BaseMonotone(c: seq<nat>, j: nat, k: nat, g: nat)
    requires j <= k <= |c| && k <= g + 1
    ensures Base(c, j, g) <= Base(c, k, g)
  {
    if j < k {
      BaseMonotone(c, j, k - 1, g);
    }
  }

  /** Codes are laid out without overlap in the order (length, rank). */
  lemma StartOrder(c: seq<nat>, j: nat, q: nat, k: nat, r: nat, g: nat)
    requires 1 <= j <= k <= g < |c| && q < c[j]
    requires j == k ==> q < r
    ensures Start(c, j, q, g) + Pow2(g - j) <= Start(c, k, r, g)
  {
    StartIsProduct(c, j, q, g);
    StartIsProduct(c, k, r, g);
    Distribute(q, 1, Pow2(g - j));
    if j == k {
      MulLe(q + 1, r, Pow2(g - j));
    } else {
      MulLe(q + 1, c[j], Pow2(g - j));
      BaseMonotone(c, j + 1, k, g);
    }
  }

  /** The numeric code of the RFC and the interval layout agree. */
  lemma {:induction false} FirstCodeIsBase(lens: seq<nat>, c: seq<nat>, k: nat, g: nat)
    requires Counts(lens, c) && 1 <= k <= g <= BMAX
    ensures FirstCode(lens, k) * Pow2(g - k) == Base(c, k, g)
  {
    if k > 1 {
      FirstCodeIsBase(lens, c, k - 1, g);
      var u := Pow2(g - k);
      Associate(2, FirstCode(lens, k - 1), u);
      Associate(2, CountLen(lens, k - 1), u);
      Distribute(2 * FirstCode(lens, k - 1), 2 * CountLen(lens, k - 1), u);
      Associate(FirstCode(lens, k - 1), 2, u);
      Associate(CountLen(lens, k - 1), 2, u);
    }
  }

  lemma {:induction false} CountLenPrefix(lens: seq<nat>, n: nat, len: nat)
    requires n <= |lens|
    ensures CountLen(lens[..n], len) <= CountLen(lens, len)
    ensures n < |lens| && lens[n] == len ==> CountLen(lens[..n], len) < CountLen(lens, len)
    decreases |lens| - n
  {
    if n < |lens| {
      CountLenPrefix(lens, n + 1, len);
      assert lens[..n + 1][..n] == lens[..n];
    } else {
      assert lens[..n] == lens;
    }
  }

  /** Every rank below the count belongs to some symbol. */
  lemma {:induction false} SymbolOfRank(lens: seq<nat>, len: nat, r: nat) returns (sym: nat)
    requires r < CountLen(lens, len)
    ensures sym < |lens| && lens[sym] == len && CountLen(lens[..sym], len) == r
  {
    var n := |lens| - 1;
    if r < CountLen(lens[..n], len) {
      sym := SymbolOfRank(lens[..n], len, r);
      assert lens[..n][..sym] == lens[..sym];
    } else {
      sym := n;
    }
  }

  lemma RankInjective(lens: seq<nat>, s: nat, t: nat)
    requires s < t < |lens| && lens[s] == lens[t]
    ensures CountLen(lens[..s], lens[s]) < CountLen(lens[..t], lens[t])
  {
    CountLenPrefix(lens[..t], s, lens[s]);
    assert lens[..t][..s] == lens[..s];
  }

  /** At most one symbol has a given code. */
  lemma CodeInjective(lens: seq<nat>, s: nat, t: nat, bits: seq<bool>)
    requires CodeOf(lens, s, bits) && CodeOf(lens, t, bits)
    ensures s == t
  {
    if s < t {
      RankInjective(lens, s, t);
    } else if t < s {
      RankInjective(lens, t, s);
    }
  }

  /** A symbol's code, as an interval, is the slot its length and rank name. */
  lemma CodeIsStart(lens: seq<nat>, c: seq<nat>, sym: nat, bits: seq<bool>, g: nat)
    requires Counts(lens, c) && sym < |lens| && 1 <= lens[sym] == |bits| <= g <= BMAX
    ensures CodeOf(lens, sym, bits) <==>
            Val(bits, g) == Start(c, lens[sym], CountLen(lens[..sym], lens[sym]), g)
  {
    var k, r := lens[sym], CountLen(lens[..sym], lens[sym]);
    var u := Pow2(g - k);
    ValIsMsb(bits, g);
    StartIsProduct(c, k, r, g);
    FirstCodeIsBase(lens, c, k, g);
    Distribute(FirstCode(lens, k), r, u);
    if Msb(bits) < Code(lens, sym) {
      MulLe(Msb(bits) + 1, Code(lens, sym), u);
      Distribute(Msb(bits), 1, u);
    } else if Msb(bits) > Code(lens, sym) {
      MulLe(Code(lens, sym) + 1, Msb(bits), u);
      Distribute(Code(lens, sym), 1, u);
    }
  }

  lemma {:induction false} BaseAppend(lens: seq<nat>, len: nat, c: seq<nat>, d: seq<nat>, k: nat, g: nat)
    requires Counts(lens, c) && Counts(lens + [len], d)
    requires k <= g + 1 && g <= BMAX
    ensures Base(d, k, g) == Base(c, k, g) + (if 0 < len < k then Pow2(g - len) else 0)
  {
    if k > 1 {
      BaseAppend(lens, len, c, d, k - 1, g);
      assert (lens + [len])[..|lens|] == lens;
      assert d[k - 1] == c[k - 1] + (if len == k - 1 then 1 else 0);
      Distribute(c[k - 1], 1, Pow2(g + 1 - k));
    }
  }

  ghost function CountTable(lens: seq<nat>): (c: seq<nat>)
    ensures Counts(lens, c)
  {
    seq(BMAX + 1, (len: nat) => CountLen(lens, len))
  }

  /** The Kraft sum, summed length by length. */
  lemma {:induction false} KraftIsBase(lens: seq<nat>, c: seq<nat>, g: nat)
    requires Counts(lens, c) && g <= BMAX
    requires forall s :: 0 <= s < |lens| ==> lens[s] <= g
    ensures Kraft(lens, g) == Base(c, g + 1, g)
  {
    if lens == [] {
      BaseOfNothing(c, g + 1, g);
    } else {
      var n := |lens| - 1;
      var p := lens[..n];
      assert lens == p + [lens[n]];
      assert lens[n] <= g;
      KraftIsBase(p, CountTable(p), g);
      BaseAppend(p, lens[n], CountTable(p), c, g + 1, g);
    }
  }

  lemma {:induction false} BaseOfNothing(c: seq<nat>, k: nat, g: nat)
    requires k <= |c| && k <= g + 1
    requires forall j :: 1 <= j < k ==> c[j] == 0
    ensures Base(c, k, g) == 0
  {
    if k > 1 {
      BaseOfNothing(c, k - 1, g);
    }
  }

  /** Changing the unit of the Kraft sum. */
  lemma {:induction false} KraftScale(lens: seq<nat>, g: nat, h: nat)
    requires g <= h && forall s :: 0 <= s < |lens| ==> lens[s] <= g
    ensures Kraft(lens, h) == Kraft(lens, g) * Pow2(h - g)
  {
    if lens != [] {
      var n := |lens| - 1;
      assert lens[n] <= g;
      KraftScale(lens[..n], g, h);
      if lens[n] != 0 {
        Pow2Add(g - lens[n], h - g);
        Distribute(Kraft(lens[..n], g), Pow2(g - lens[n]), Pow2(h - g));
      }
    }
  }
}
