/** The integer to binary32 conversions of kern_acct.c. Binary32 values are
    compared as whole numbers, scaled by 2^149, the reciprocal of the smallest
    positive one (section 3.4 of IEEE 754-2008). */
module Acct {

  import opened Bits

  const MANT: nat := 0x80_0000 // 2^(FLT_MANT_DIG - 1)
  const INFINITY: nat := 0x7f80_0000
  const CALC_BITS: nat := 28
  const LOG2_1M: nat := 20

  /** 2^149 times the value of the binary32 number with these bits. */
  function Float(b: nat): nat {
    if b / MANT == 0 then b % MANT else (MANT + b % MANT) * Pow2(b / MANT - 1)
  }

  /** The bits of the greatest binary32 number not above `v`. */
  ghost predicate IsFloor(v: nat, r: nat) {
    && r < INFINITY && Float(r) <= v * Pow2(149)
    && forall b: nat :: b < INFINITY && Float(b) <= v * Pow2(149) ==> Float(b) <= Float(r)
  }

  // ---------------------------------------------------------------- the code

  /** fls: the number of the highest bit set, counting from 1. */
  function Fls(x: nat): (n: nat)
    ensures n == 0 <==> x == 0
    ensures x < Pow2(n) && (n > 0 ==> Pow2(n - 1) <= x)
  {
    if x == 0 then 0 else 1 + Fls(x / 2)
  }

  /** The last expression of both functions, in 32 bits. */
  function Pack(val: nat, exp: int): nat {
    var normExp := Fls(val) - 1;
    var shift := 23 - normExp;
    var mant := (if shift > 0 then val * Pow2(shift) else val / Pow2(-shift)) % MANT;
    (127 + exp + normExp) % 0x200 * MANT + mant
  }

  function EncodeTimeval(sec: nat, usec: nat): nat {
    if sec == 0 && usec == 0 then 0
    else if sec == 0 then Pack(usec, 0)
    else
      var log2s := Fls(sec) - 1;
      if log2s + LOG2_1M < CALC_BITS then Pack(1000000 * sec + usec, 0)
      else
        var exp := log2s + LOG2_1M - CALC_BITS;
        Pack((1000000 * sec + usec) / Pow2(exp), exp)
  }

  /** `fls` takes an int: it sees the low 32 bits of the long. */
  function EncodeLong(val0: int): nat
    requires -0x8000_0000_0000_0000 <= val0 < 0x8000_0000_0000_0000
  {
    if val0 == 0 then 0
    else
      var val: nat := if val0 < 0 then 0x7fff_ffff_ffff_ffff else val0;
      var normExp := Fls(val % 0x1_0000_0000) - 1;
      var shift := 23 - normExp;
      var mant := (if shift > 0 then val * Pow2(shift) else val / Pow2(-shift)) % MANT;
      (127 + normExp) % 0x200 * MANT + mant
  }

  // ---------------------------------------------------------------- binary32 in order

  lemma FloatStep(b: nat)
    ensures Float(b) < Float(b + 1)
  {
    var e, f := b / MANT, b % MANT;
    if f < MANT - 1 {
      assert (b + 1) / MANT == e && (b + 1) % MANT == f + 1;
      if e > 0 {
        Distribute(MANT + f, 1, Pow2(e - 1));
      }
    } else {
      assert (b + 1) / MANT == e + 1 && (b + 1) % MANT == 0;
      if e > 0 {
        assert Pow2(e) == 2 * Pow2(e - 1);
        assert MANT * Pow2(e) == (2 * MANT) * Pow2(e - 1);
        Distribute(2 * MANT - 1, 1, Pow2(e - 1));
      }
    }
  }

  lemma {:induction false} FloatMonotone(a: nat, b: nat)
    requires a <= b
    ensures Float(a) <= Float(b)
    decreases b - a
  {
    if a < b {
      FloatMonotone(a, b - 1);
      FloatStep(b - 1);
    }
  }

  /** To be the floor it is enough to reach up to the value, but not beyond it
      with the next bit pattern. */
  lemma FloorBetween(v: nat, r: nat)
    requires r < INFINITY && Float(r) <= v * Pow2(149) < Float(r + 1)
    ensures IsFloor(v, r)
  {
    hide Float, Pow2;
    forall b: nat | b < INFINITY && Float(b) <= v * Pow2(149)
      ensures Float(b) <= Float(r)
    {
      if b > r {
        FloatMonotone(r + 1, b);
      } else {
        FloatMonotone(b, r);
      }
    }
  }

  /** The value of packed bits, and of the bits that follow. */
  lemma PackedFloat(e: nat, m: nat)
    requires 0 < e < 255 && MANT <= m < 2 * MANT
    ensures var r := e * MANT + (m - MANT);
            r < INFINITY && Float(r) == m * Pow2(e - 1) && Float(r + 1) == (m + 1) * Pow2(e - 1)
  {
    var r := e * MANT + (m - MANT);
    assert r / MANT == e && r % MANT == m - MANT;
    if m + 1 < 2 * MANT {
      assert (r + 1) / MANT == e && (r + 1) % MANT == m + 1 - MANT;
    } else {
      assert (r + 1) / MANT == e + 1 && (r + 1) % MANT == 0;
      assert Pow2(e) == 2 * Pow2(e - 1);
      assert MANT * Pow2(e) == (2 * MANT) * Pow2(e - 1);
    }
  }

  // ---------------------------------------------------------------- arithmetic

  lemma Quotient(v: nat, d: nat)
    requires d > 0
    ensures (v / d) * d <= v < (v / d + 1) * d
  {
    Distribute(v / d, 1, d);
  }

  /** A quotient is known by where it lies. */
  lemma QuotientIs(v: nat, d: nat, q: nat)
    requires d > 0 && q * d <= v < (q + 1) * d
    ensures v / d == q
  {
    Quotient(v, d);
    if v / d < q {
      MulLe(v / d + 1, q, d);
    } else if q < v / d {
      MulLe(q + 1, v / d, d);
    }
  }

  lemma MulLess(a: nat, b: nat, c: nat)
    requires a < b && c > 0
    ensures a * c < b * c
  {
  }

  lemma QuotientTwice(v: nat, a: nat, b: nat)
    requires a > 0 && b > 0
    ensures a * b > 0 && (v / a) / b == v / (a * b)
  {
    var q := (v / a) / b;
    Quotient(v, a);
    Quotient(v / a, b);
    MulLe(q * b, v / a, a);
    MulLe(v / a + 1, (q + 1) * b, a);
    Associate(q, b, a);
    Associate(q + 1, b, a);
    assert b * a == a * b;
    QuotientIs(v, a * b, q);
  }

  lemma Pow2Values()
    ensures Pow2(0) == 1 && Pow2(23) == MANT && Pow2(24) == 2 * MANT
  {
    assert Pow2(8) == 256;
    Pow2Add(8, 8);
    Pow2Add(16, 7);
    assert Pow2(7) == 128;
  }

  // ---------------------------------------------------------------- packing

  /** A value that needs shifting up is encoded exactly. */
  lemma PackSmall(v: nat)
    requires 0 < v < MANT
    ensures Float(Pack(v, 0)) == v * Pow2(149) && Pack(v, 0) < INFINITY
    ensures Float(Pack(v, 0)) < Float(Pack(v, 0) + 1)
  {
    hide Fls, Pow2, Float;
    var n := Fls(v);
    Pow2Values();
    if n > 23 {
      Pow2Monotone(23, n - 1);
    }
    var m := v * Pow2(24 - n);
    Pow2Add(n - 1, 24 - n);
    Pow2Add(n, 24 - n);
    MulLe(Pow2(n - 1), v, Pow2(24 - n));
    MulLess(v, Pow2(n), Pow2(24 - n));
    assert MANT <= m < 2 * MANT;
    PackedFloat(126 + n, m);
    Associate(v, Pow2(24 - n), Pow2(125 + n));
    Pow2Add(24 - n, 125 + n);
    FloatStep(Pack(v, 0));
  }

  /** Where a number lies among the powers of two. */
  predicate Between(x: nat, n: nat) {
    n > 0 && Pow2(n - 1) <= x < Pow2(n)
  }

  lemma FlsIs(x: nat, n: nat)
    requires Between(x, n)
    ensures Fls(x) == n
  {
    hide Pow2, Fls;
    if Fls(x) < n {
      Pow2Monotone(Fls(x), n - 1);
    } else if Fls(x) > n {
      Pow2Monotone(n, Fls(x) - 1);
    }
  }

  lemma PackIs(val: nat, exp: nat, n: nat, m: nat)
    requires Fls(val) == n >= 24 && m == val / Pow2(n - 24) && MANT <= m < 2 * MANT && exp + n <= 127
    ensures Pack(val, exp) == (126 + exp + n) * MANT + (m - MANT)
  {
    hide Fls, Pow2;
  }

  /** A larger one is cut off after 24 bits. */
  lemma PackLarge(v: nat, exp: nat)
    requires v / Pow2(exp) >= MANT && exp + Fls(v / Pow2(exp)) <= 127
    ensures var r := Pack(v / Pow2(exp), exp);
            r < INFINITY && Float(r) <= v * Pow2(149) < Float(r + 1)
  {
    hide Fls, Pow2, Float, Pack;
    var val := v / Pow2(exp);
    var n := Fls(val);
    Pow2Values();
    if n < 24 {
      Pow2Monotone(n, 23);
    }
    var k := n - 24;
    Pow2Add(23, k);
    Pow2Add(24, k);
    CutOff(val, k);
    var m := val / Pow2(k);
    PackIs(val, exp, n, m);
    PackedFloat(126 + exp + n, m);
    CutTwice(v, exp, k);
  }

  lemma CutTwice(v: nat, exp: nat, k: nat)
    ensures var m, p := v / Pow2(exp) / Pow2(k), Pow2(149 + exp + k);
            m * p <= v * Pow2(149) < (m + 1) * p
  {
    hide Pow2;
    Pow2Add(exp, k);
    Pow2Add(149, exp + k);
    ScaledTwice(v, Pow2(exp), Pow2(k), Pow2(149), Pow2(149 + exp + k));
  }

  lemma ScaledTwice(v: nat, a: nat, b: nat, s: nat, p: nat)
    requires a > 0 && b > 0 && s > 0 && p == s * (a * b)
    ensures (v / a / b) * p <= v * s < (v / a / b + 1) * p
  {
    QuotientTwice(v, a, b);
    Quotient(v, a * b);
    Scaled(v, v / a / b, a * b, s, p);
  }

  lemma Scaled(v: nat, m: nat, d: nat, s: nat, p: nat)
    requires m * d <= v < (m + 1) * d && s > 0 && p == s * d
    ensures m * p <= v * s < (m + 1) * p
  {
    MulLe(m * d, v, s);
    MulLess(v, (m + 1) * d, s);
    Associate(m, d, s);
    Associate(m + 1, d, s);
    assert d * s == p;
  }

  lemma CutOff(val: nat, k: nat)
    requires MANT * Pow2(k) <= val < 2 * MANT * Pow2(k)
    ensures MANT <= val / Pow2(k) < 2 * MANT
  {
    hide Pow2;
    Quotient(val, Pow2(k));
    if val / Pow2(k) < MANT {
      MulLe(val / Pow2(k) + 1, MANT, Pow2(k));
    } else if val / Pow2(k) >= 2 * MANT {
      MulLe(2 * MANT, val / Pow2(k), Pow2(k));
    }
  }

  /** Both together: packing is exact up to the 24th bit. */
  lemma PackFloor(v: nat, exp: nat)
    requires v > 0 && (exp > 0 ==> v / Pow2(exp) >= MANT) && exp + Fls(v / Pow2(exp)) <= 127
    ensures IsFloor(v, Pack(v / Pow2(exp), exp))
    ensures v * Pow2(149) < Float(Pack(v / Pow2(exp), exp) + 1)
  {
    hide Fls, Pow2, Float, Pack, IsFloor;
    Pow2Values();
    if v / Pow2(exp) < MANT {
      PackSmall(v);
    } else {
      PackLarge(v, exp);
    }
    FloorBetween(v, Pack(v / Pow2(exp), exp));
  }

  // ---------------------------------------------------------------- encode_timeval

  function Micros(sec: nat, usec: nat): nat {
    1000000 * sec + usec
  }

  lemma Pow2Table()
    ensures Pow2(8) == 0x100 && Pow2(9) == 0x200 && Pow2(20) == 0x10_0000 && Pow2(29) == 0x2000_0000 && Pow2(31) == 0x8000_0000
  {
    assert Pow2(8) == 0x100;
    assert Pow2(4) == 16 && Pow2(9) == 512 && Pow2(2) == 4;
    hide Pow2;
    Pow2Add(8, 8);
    Pow2Add(16, 4);
    Pow2Add(20, 9);
    Pow2Add(29, 2);
  }

  /** Up to 255 seconds need no shift. */
  lemma CalcLow(sec: nat, usec: nat)
    requires Fls(sec) < 9 && usec < 1000000
    ensures Micros(sec, usec) < 0x1000_0000
  {
    hide Pow2, Fls;
    Pow2Table();
    Pow2Monotone(Fls(sec), 8);
  }

  /** From 256 on, the shift leaves between 24 and 29 bits. */
  lemma CalcHigh(sec: nat, usec: nat)
    requires Fls(sec) >= 9 && sec < 0x8000_0000 && usec < 1000000
    ensures Fls(sec) <= 31
    ensures MANT <= Micros(sec, usec) / Pow2(Fls(sec) - 9) < 0x2000_0000
  {
    hide Pow2, Fls;
    Pow2Table();
    FlsBelow(sec, 31);
    var d := Pow2(Fls(sec) - 9);
    Pow2Add(Fls(sec) - 9, 8);
    Pow2Add(Fls(sec) - 9, 9);
    Shifted(Micros(sec, usec), d);
  }

  lemma Shifted(v: nat, d: nat)
    requires d > 0 && MANT * d <= v < 0x2000_0000 * d
    ensures MANT <= v / d < 0x2000_0000
  {
    Quotient(v, d);
    if v / d < MANT {
      MulLe(v / d + 1, MANT, d);
    } else if v / d >= 0x2000_0000 {
      MulLe(0x2000_0000, v / d, d);
    }
  }

  lemma FlsBelow(x: nat, n: nat)
    requires x < Pow2(n)
    ensures Fls(x) <= n
  {
    hide Pow2, Fls;
    if Fls(x) > n {
      Pow2Monotone(n, Fls(x) - 1);
    }
  }

  lemma NothingEncoded()
    ensures EncodeTimeval(0, 0) == 0 && EncodeLong(0) == 0
  {
  }

  /** encode_timeval yields the bits of the greatest binary32 number not above
      the time in microseconds. */
  lemma TimevalFloor(sec: nat, usec: nat)
    requires sec < 0x8000_0000 && usec < 1000000
    ensures IsFloor(Micros(sec, usec), EncodeTimeval(sec, usec))
    ensures Micros(sec, usec) * Pow2(149) < Float(EncodeTimeval(sec, usec) + 1)
  {
    hide Fls, Pow2, Pack, IsFloor, EncodeTimeval;
    var v := Micros(sec, usec);
    if v == 0 {
      ZeroFloor();
      NothingEncoded();
    } else {
      Pow2Table();
      Pow2Values();
      var exp := if Fls(sec) < 9 then 0 else Fls(sec) - 9;
      assert v / Pow2(0) == v;
      if exp == 0 && Fls(sec) < 9 {
        CalcLow(sec, usec);
      } else {
        CalcHigh(sec, usec);
      }
      FlsBelow(v / Pow2(exp), 29);
      PackFloor(v, exp);
      TimevalPacks(sec, usec, exp);
    }
  }

  lemma TimevalPacks(sec: nat, usec: nat, exp: nat)
    requires Micros(sec, usec) > 0 && exp == if Fls(sec) < 9 then 0 else Fls(sec) - 9
    ensures EncodeTimeval(sec, usec) == Pack(Micros(sec, usec) / Pow2(exp), exp)
  {
    hide Fls, Pack, Pow2;
    Pow2Values();
    if sec == 0 {
      assert Fls(0) == 0;
    }
  }

  lemma ZeroFloor()
    ensures IsFloor(0, 0) && 0 < Float(1)
  {
    FloatStep(0);
    FloorBetween(0, 0);
  }

  /** A longer time never gets fewer bits' worth. */
  lemma TimevalMonotone(sec: nat, usec: nat, sec': nat, usec': nat)
    requires sec < 0x8000_0000 && usec < 1000000 && sec' < 0x8000_0000 && usec' < 1000000
    requires Micros(sec, usec) <= Micros(sec', usec')
    ensures Float(EncodeTimeval(sec, usec)) <= Float(EncodeTimeval(sec', usec'))
  {
    hide Float, Pow2, EncodeTimeval;
    TimevalFloor(sec, usec);
    TimevalFloor(sec', usec');
    MulLe(Micros(sec, usec), Micros(sec', usec'), Pow2(149));
  }

  /** What is lost is less than 2^-23 of the time. */
  lemma TimevalError(sec: nat, usec: nat)
    requires sec < 0x8000_0000 && usec < 1000000 && Micros(sec, usec) > 0
    ensures var v, f := Micros(sec, usec) * Pow2(149), Float(EncodeTimeval(sec, usec));
            f <= v && (v - f) * MANT < v
  {
    hide Float, Pow2, EncodeTimeval, IsFloor;
    var r := EncodeTimeval(sec, usec);
    TimevalFloor(sec, usec);
    FloorError(Micros(sec, usec), r);
  }

  lemma FloorError(v: nat, r: nat)
    requires v > 0 && IsFloor(v, r) && v * Pow2(149) < Float(r + 1)
    ensures Float(r) <= v * Pow2(149) && (v * Pow2(149) - Float(r)) * MANT < v * Pow2(149)
  {
    hide Float, Pow2;
    OneIsOne();
    MulLe(1, v, Pow2(149));
    assert Float(127 * MANT) <= Float(r);
    if r < 127 * MANT {
      FloatStep(r);
      FloatMonotone(r + 1, 127 * MANT);
    }
    StepSize(r);
    MulLess(v * Pow2(149) - Float(r), Float(r + 1) - Float(r), MANT);
  }

  /** 1.0 and the patterns below it. */
  lemma OneIsOne()
    ensures Float(127 * MANT) == Pow2(149) && 127 * MANT < INFINITY
  {
    hide Pow2;
    assert (127 * MANT) / MANT == 127 && (127 * MANT) % MANT == 0;
    Pow2Values();
    Pow2Add(23, 126);
  }

  /** From a normal number to the next is 2^-23 of it at most. */
  lemma StepSize(r: nat)
    ensures r >= MANT ==> (Float(r + 1) - Float(r)) * MANT <= Float(r)
  {
    if r >= MANT {
      var e, f := r / MANT, r % MANT;
      var p := Pow2(e - 1);
      if f < MANT - 1 {
        assert (r + 1) / MANT == e && (r + 1) % MANT == f + 1;
        Distribute(MANT + f, 1, p);
      } else {
        assert (r + 1) / MANT == e + 1 && (r + 1) % MANT == 0;
        assert Pow2(e) == 2 * p;
        Distribute(MANT + f, 1, p);
      }
      MulLe(MANT, MANT + f, p);
    }
  }

  // ---------------------------------------------------------------- encode_long

  /** Below 2^32 fls sees the whole number, and encode_long packs it. */
  lemma LongPacks(val: nat)
    requires 0 < val < 0x1_0000_0000
    ensures EncodeLong(val) == Pack(val, 0)
  {
    hide Fls, Pow2;
    assert val % 0x1_0000_0000 == val;
  }

  lemma Pow2Of32()
    ensures Pow2(32) == 0x1_0000_0000
  {
    Pow2Values();
    Pow2Add(24, 8);
    assert Pow2(8) == 256;
  }

  lemma LongFloor(val: nat)
    requires val < 0x1_0000_0000
    ensures IsFloor(val, EncodeLong(val))
  {
    hide Fls, Pow2, Pack, IsFloor, EncodeLong;
    Pow2Values();
    if val == 0 {
      ZeroFloor();
      NothingEncoded();
    } else {
      LongPacks(val);
      Pow2Of32();
      FlsBelow(val, 32);
      assert val / Pow2(0) == val;
      PackFloor(val, 0);
    }
  }

  /** From 2^32 on fls sees only the low half, and the result is less than 2^32. */
  lemma LongTooSmall(val: nat)
    requires 0x1_0000_0000 <= val < 0x8000_0000_0000_0000
    ensures EncodeLong(val) < 159 * MANT
  {
    hide Fls, Pow2;
    var low := val % 0x1_0000_0000;
    Pow2Of32();
    FlsBelow(low, 32);
  }

  lemma TwoTo32()
    ensures Float(159 * MANT) == 0x1_0000_0000 * Pow2(149)
  {
    hide Pow2;
    assert (159 * MANT) / MANT == 159 && (159 * MANT) % MANT == 0;
    Pow2Values();
    Pow2Of32();
    Pow2Add(23, 158);
    Pow2Add(32, 149);
  }

  /** encode_long yields the greatest binary32 number not above its argument if
      and only if that is less than 2^32. */
  lemma LongExact(val: nat)
    requires val < 0x8000_0000_0000_0000
    ensures IsFloor(val, EncodeLong(val)) <==> val < 0x1_0000_0000
  {
    hide Pow2, Float, EncodeLong;
    if val < 0x1_0000_0000 {
      LongFloor(val);
    } else {
      LongTooSmall(val);
      TwoTo32();
      MulLe(0x1_0000_0000, val, Pow2(149));
      FloatMonotone(EncodeLong(val) + 1, 159 * MANT);
      FloatStep(EncodeLong(val));
      assert Float(159 * MANT) <= val * Pow2(149) && 159 * MANT < INFINITY;
    }
  }

  /** A negative argument is encoded as the number just below 2^32. */
  lemma LongNegative(val: int)
    requires -0x8000_0000_0000_0000 <= val < 0
    ensures EncodeLong(val) == 159 * MANT - 1
  {
    hide Pow2;
    Pow2Values();
    Pow2Of32();
    assert 0x7fff_ffff_ffff_ffff % 0x1_0000_0000 == 0xffff_ffff;
    Pow2Table();
    FlsIs(0xffff_ffff, 32);
  }
}
