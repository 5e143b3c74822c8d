/** Bit strings in the order in which the decoder reads them from the stream,
    and the two numbers a bit string stands for. */
module Bits {

  function Pow2(n: nat): (r: nat)
    ensures r > 0
  {
    if n == 0 then 1 else 2 * Pow2(n - 1)
  }

  function Weight(b: bool): nat { if b then 1 else 0 }

  /** The unsigned integer that holds the string with its first bit least
      significant: how the bit buffer and the reversed codes are kept. */
  function Lsb(s: seq<bool>): nat {
    if s == [] then 0 else Weight(s[0]) + 2 * Lsb(s[1..])
  }

  /** The `n` low bits of `x` as a string, first bit least significant. */
  function BitsOf(x: nat, n: nat): (s: seq<bool>)
    ensures |s| == n
  {
    if n == 0 then [] else [x % 2 == 1] + BitsOf(x / 2, n - 1)
  }

  /** The number the string stands for with its first bit most significant:
      how section 3.2.2 of RFC 1951 reads a Huffman code. */
  function Msb(s: seq<bool>): nat {
    if s == [] then 0 else 2 * Msb(s[..|s| - 1]) + Weight(s[|s| - 1])
  }

  /** Left end of the interval of `g`-bit strings that start with `s`. */
  function Val(s: seq<bool>, g: nat): nat
    requires |s| <= g
  {
    if s == [] then 0
    else Val(s[..|s| - 1], g) + if s[|s| - 1] then Pow2(g - |s|) else 0
  }

  lemma Pow2Add(m: nat, n: nat)
    ensures Pow2(m + n) == Pow2(m) * Pow2(n)
  {
    if m != 0 {
      Pow2Add(m - 1, n);
    }
  }

  lemma Pow2Monotone(m: nat, n: nat)
    requires m <= n
    ensures Pow2(m) <= Pow2(n)
  {
    if m < n {
      Pow2Monotone(m, n - 1);
    }
  }

  lemma MulLe(a: nat, b: nat, c: nat)
    requires a <= b
    ensures a * c <= b * c
  {
  }

  lemma Distribute(a: int, b: int, c: int)
    ensures (a + b) * c == a * c + b * c
  {
  }

  lemma DistributeMinus(a: int, b: int, c: int)
    ensures (a - b) * c == a * c - b * c
  {
  }

  lemma Associate(a: int, b: int, c: int)
    ensures (a * b) * c == a * (b * c)
  {
  }

  lemma LsbBound(s: seq<bool>)
    ensures Lsb(s) < Pow2(|s|)
  {
  }

  lemma MsbBound(s: seq<bool>)
    ensures Msb(s) < Pow2(|s|)
  {
  }

  lemma {:induction false} LsbAppend(s: seq<bool>, t: seq<bool>)
    ensures Lsb(s + t) == Lsb(s) + Pow2(|s|) * Lsb(t)
  {
    if s == [] {
      assert s + t == t;
    } else {
      var r := s[1..];
      assert (s + t)[1..] == r + t;
      LsbAppend(r, t);
      Associate(2, Pow2(|r|), Lsb(t));
    }
  }

  lemma Pow2Step(n: nat)
    ensures Pow2(n + 1) == 2 * Pow2(n)
  {
  }

  lemma MsbStep(s: seq<bool>)
    requires s != []
    ensures Msb(s) == 2 * Msb(s[..|s| - 1]) + Weight(s[|s| - 1])
  {
  }

  lemma DoubleStep(a: int, p: int, m: int, w: int)
    ensures 2 * (a * p + m) + w == a * (2 * p) + (2 * m + w)
  {
    Associate(a, 2, p);
    Associate(2, a, p);
  }

  lemma {:induction false} MsbAppend(s: seq<bool>, t: seq<bool>)
    ensures Msb(s + t) == Msb(s) * Pow2(|t|) + Msb(t)
  {
    if t == [] {
      assert s + t == s;
    } else {
      var t' := t[..|t| - 1];
      assert (s + t)[..|s + t| - 1] == s + t';
      MsbAppend(s, t');
      Pow2Step(|t'|);
      MsbStep(s + t);
      MsbStep(t);
      hide Msb, Pow2;
      DoubleStep(Msb(s), Pow2(|t'|), Msb(t'), Weight(t[|t| - 1]));
    }
  }

  lemma {:induction false} BitsOfLsb(s: seq<bool>)
    ensures BitsOf(Lsb(s), |s|) == s
  {
    if s != [] {
      BitsOfLsb(s[1..]);
      assert Lsb(s) / 2 == Lsb(s[1..]);
    }
  }

  lemma {:induction false} LsbBitsOf(x: nat, n: nat)
    requires x < Pow2(n)
    ensures Lsb(BitsOf(x, n)) == x
  {
    if n != 0 {
      LsbBitsOf(x / 2, n - 1);
    }
  }

  lemma LsbInjective(s: seq<bool>, t: seq<bool>)
    requires |s| == |t| && Lsb(s) == Lsb(t)
    ensures s == t
  {
    BitsOfLsb(s);
    BitsOfLsb(t);
  }

  lemma {:induction false} MsbInjective(s: seq<bool>, t: seq<bool>)
    requires |s| == |t| && Msb(s) == Msb(t)
    ensures s == t
  {
    if s != [] {
      var n := |s| - 1;
      MsbInjective(s[..n], t[..n]);
      assert s == s[..n] + [s[n]] && t == t[..n] + [t[n]];
    }
  }

  /** Splitting a buffer: the low bits, and the rest after a shift. */
  lemma LsbSplit(s: seq<bool>, n: nat)
    requires n <= |s|
    ensures Lsb(s) % Pow2(n) == Lsb(s[..n])
    ensures Lsb(s) / Pow2(n) == Lsb(s[n..])
  {
    hide Lsb, Pow2;
    assert s == s[..n] + s[n..];
    LsbAppend(s[..n], s[n..]);
    LsbBound(s[..n]);
    DivMod(Lsb(s[..n]), Lsb(s[n..]), Pow2(n));
  }

  lemma DivMod(r: nat, q: nat, d: nat)
    requires r < d
    ensures (r + d * q) / d == q && (r + d * q) % d == r
  {
    var x := r + d * q;
    assert x == d * (x / d) + x % d;
    if x / d < q {
      MulLe(x / d + 1, q, d);
    } else if x / d > q {
      MulLe(q + 1, x / d, d);
    }
  }

  lemma PrefixArithmetic(p: nat, t: nat, n: nat, u: nat)
    requires t < n
    ensures p * (n * u) <= (p * n + t) * u
    ensures (p * n + t) * u + u <= p * (n * u) + n * u
  {
    Distribute(p * n, t, u);
    Associate(p, n, u);
    MulLe(t + 1, n, u);
    Distribute(t, 1, u);
  }

  lemma {:induction false} ValIsMsb(s: seq<bool>, g: nat)
    requires |s| <= g
    ensures Val(s, g) == Msb(s) * Pow2(g - |s|)
  {
    if s != [] {
      var m := Msb(s[..|s| - 1]);
      ValIsMsb(s[..|s| - 1], g);
      Associate(m, 2, Pow2(g - |s|));
      Distribute(2 * m, Weight(s[|s| - 1]), Pow2(g - |s|));
    }
  }

  /** The interval of a string lies inside the interval of each prefix. */
  lemma ValPrefix(s: seq<bool>, n: nat, g: nat)
    requires n <= |s| <= g
    ensures Val(s[..n], g) <= Val(s, g)
    ensures Val(s, g) + Pow2(g - |s|) <= Val(s[..n], g) + Pow2(g - n)
  {
    var p, t := s[..n], s[n..];
    assert s == p + t;
    ValIsMsb(s, g);
    ValIsMsb(p, g);
    MsbAppend(p, t);
    MsbBound(t);
    Pow2Add(|t|, g - |s|);
    PrefixArithmetic(Msb(p), Msb(t), Pow2(|t|), Pow2(g - |s|));
  }

  /** Strings of one length have disjoint intervals. */
  lemma ValDisjoint(s: seq<bool>, t: seq<bool>, g: nat)
    requires |s| == |t| <= g && s != t
    ensures Val(s, g) + Pow2(g - |s|) <= Val(t, g) || Val(t, g) + Pow2(g - |t|) <= Val(s, g)
  {
    var u := Pow2(g - |s|);
    ValIsMsb(s, g);
    ValIsMsb(t, g);
    Distribute(Msb(s), 1, u);
    Distribute(Msb(t), 1, u);
    if Msb(s) == Msb(t) {
      MsbInjective(s, t);
    } else if Msb(s) < Msb(t) {
      MulLe(Msb(s) + 1, Msb(t), u);
    } else {
      MulLe(Msb(t) + 1, Msb(s), u);
    }
  }

  /** Overlapping intervals: the shorter string is a prefix of the longer. */
  lemma ValOverlap(p: seq<bool>, s: seq<bool>, g: nat)
    requires |p| <= |s| <= g
    requires Val(p, g) <= Val(s, g) < Val(p, g) + Pow2(g - |p|)
    ensures s[..|p|] == p
  {
    hide Val, Pow2;
    if s[..|p|] != p {
      ValPrefix(s, |p|, g);
      ValDisjoint(p, s[..|p|], g);
    }
  }

  /** A shorter string whose interval starts inside the longer one's is its prefix. */
  lemma ValMeets(q: seq<bool>, s: seq<bool>, g: nat)
    requires |q| <= |s| <= g
    requires Val(s, g) <= Val(q, g) < Val(s, g) + Pow2(g - |s|)
    ensures q == s[..|q|]
  {
    hide Val, Pow2;
    ValPrefix(s, |q|, g);
    if q != s[..|q|] {
      ValDisjoint(q, s[..|q|], g);
    }
  }

  lemma ValBound(s: seq<bool>, g: nat)
    requires |s| <= g
    ensures Val(s, g) + Pow2(g - |s|) <= Pow2(g)
  {
    ValIsMsb(s, g);
    MsbBound(s);
    Pow2Add(|s|, g - |s|);
    Distribute(Msb(s), 1, Pow2(g - |s|));
    MulLe(Msb(s) + 1, Pow2(|s|), Pow2(g - |s|));
  }

  lemma ValExtend(s: seq<bool>, g: nat)
    requires |s| < g
    ensures Val(s + [false], g) == Val(s, g)
  {
    assert (s + [false])[..|s|] == s;
  }

  /** The next string of the same length; all ones wraps to all zeros. */
  function Succ(s: seq<bool>): (r: seq<bool>)
    ensures |r| == |s|
  {
    if s == [] then []
    else if s[|s| - 1] then Succ(s[..|s| - 1]) + [false]
    else s[..|s| - 1] + [true]
  }

  predicate AllOnes(s: seq<bool>) { forall j :: 0 <= j < |s| ==> s[j] }

  lemma {:induction false} SuccMsb(s: seq<bool>)
    ensures Msb(s) + 1 == if AllOnes(s) then Pow2(|s|) else Msb(Succ(s))
    ensures AllOnes(s) ==> Msb(Succ(s)) == 0
  {
    if s != [] {
      var n := |s| - 1;
      var p := s[..n];
      SuccMsb(p);
      if s[n] {
        assert Succ(s) == Succ(p) + [false] && Succ(s)[..n] == Succ(p);
        assert AllOnes(s) == AllOnes(p);
      } else {
        assert Succ(s) == p + [true] && Succ(s)[..n] == p;
      }
    }
  }

  lemma SuccVal(s: seq<bool>, g: nat)
    requires |s| <= g
    ensures Val(s, g) + Pow2(g - |s|) == if AllOnes(s) then Pow2(g) else Val(Succ(s), g)
  {
    ValIsMsb(s, g);
    ValIsMsb(Succ(s), g);
    SuccMsb(s);
    Pow2Add(|s|, g - |s|);
    Distribute(Msb(s), 1, Pow2(g - |s|));
  }
}
