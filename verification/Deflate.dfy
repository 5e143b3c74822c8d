/** A reference decoder for the DEFLATE format of RFC 1951, over the bits of
    the whole input and an unbounded history. */
module Deflate {
  import opened Common
  import opened Bits
  import opened Canonical
  import opened HuftPrepare

  const LENGTH_BASE: seq<nat> := [3, 4, 5, 6, 7, 8, 9, 10, 11, 13, 15, 17, 19, 23, 27, 31, 35, 43, 51, 59, 67, 83, 99, 115, 131, 163, 195, 227, 258, 0, 0]
  const LENGTH_EXTRA: seq<nat> := [0, 0, 0, 0, 0, 0, 0, 0, 1, 1, 1, 1, 2, 2, 2, 2, 3, 3, 3, 3, 4, 4, 4, 4, 5, 5, 5, 5, 0, 99, 99]
  const DISTANCE_BASE: seq<nat> := [1, 2, 3, 4, 5, 7, 9, 13, 17, 25, 33, 49, 65, 97, 129, 193, 257, 385, 513, 769, 1025, 1537, 2049, 3073, 4097, 6145, 8193, 12289, 16385, 24577]
  const DISTANCE_EXTRA: seq<nat> := [0, 0, 0, 0, 1, 1, 2, 2, 3, 3, 4, 4, 5, 5, 6, 6, 7, 7, 8, 8, 9, 9, 10, 10, 11, 11, 12, 12, 13, 13]
  /** Order in which the lengths of the code length code are sent. */
  const BORDER: seq<nat> := [16, 17, 18, 0, 8, 7, 9, 6, 10, 5, 11, 4, 12, 3, 13, 2, 14, 1, 15]

  const END_OF_BLOCK := 256
  const LAST_LENGTH := 285
  const LAST_DISTANCE := 29

  /** A number sent with its first bit least significant (section 3.1.1). */
  function Number(s: seq<bool>, p: nat, n: nat): Option<nat> {
    if p + n <= |s| then Some(Lsb(s[p..p + n])) else None
  }

  /** A match of `n` bytes at distance `d`, byte by byte, so that it may overlap
      what it produces (section 3.2.3). */
  function Copy(h: seq<Byte>, n: nat, d: nat): (r: seq<Byte>)
    requires 1 <= d <= |h|
    ensures |r| == |h| + n && h <= r
    decreases n
  {
    if n == 0 then h else Copy(h + [h[|h| - d]], n - 1, d)
  }

  /** What has been output, and whether all of it: a stream may go wrong after
      some of its bytes. */
  datatype Outcome = Good(out: seq<Byte>, p: nat) | Bad(out: seq<Byte>)

  /** One element of a compressed block, with the position after it. */
  datatype Token = Literal(b: Byte, q: nat) | Match(n: nat, d: nat, q: nat) | End(q: nat) | Wrong

  /** Length of a match, with the position after its extra bits. */
  function MatchLength(sym: nat, s: seq<bool>, p: nat): (r: Option<(nat, nat)>)
    ensures r.Some? ==> p <= r.value.1 <= |s|
  {
    if END_OF_BLOCK < sym <= LAST_LENGTH then
      var extra := LENGTH_EXTRA[sym - 257];
      match Number(s, p, extra)
      case Some(x) => Some((LENGTH_BASE[sym - 257] + x, p + extra))
      case None => None
    else None
  }

  /** A set of lengths that leaves no room for its codes defines none. */
  ghost predicate Oversubscribed(lens: seq<nat>) {
    (forall i :: 0 <= i < |lens| ==> lens[i] <= BMAX) && Kraft(lens, BMAX) > Pow2(BMAX)
  }

  /** Distance of a match, with the position after it. */
  ghost function MatchDistance(dist: seq<nat>, s: seq<bool>, p: nat): (r: Option<(nat, nat)>)
    requires p <= |s|
    ensures r.Some? ==> p <= r.value.1 <= |s|
  {
    hide Decode, Oversubscribed;
    if Oversubscribed(dist) then None else
    match Decode(dist, s[p..])
    case Found(sym, len) =>
      if sym > LAST_DISTANCE then None
      else
        var extra := DISTANCE_EXTRA[sym];
        (match Number(s, p + len, extra)
         case Some(x) => Some((DISTANCE_BASE[sym] + x, p + len + extra))
         case None => None)
    case _ => None
  }

  ghost function NextToken(lit: seq<nat>, dist: seq<nat>, s: seq<bool>, p: nat): (t: Token)
    requires p <= |s|
    ensures !t.Wrong? ==> p < t.q <= |s|
  {
    match Decode(lit, s[p..])
    case Found(sym, len) =>
      if sym < 256 then Literal(sym, p + len)
      else if sym == END_OF_BLOCK then End(p + len)
      else
        (match MatchLength(sym, s, p + len)
         case Some(l) =>
           (match MatchDistance(dist, s, l.1)
            case Some(m) => Match(l.0, m.0, m.1)
            case None => Wrong)
         case None => Wrong)
    case _ => Wrong
  }

  /** The coded data of a compressed block (section 3.2.3), from bit `p` on,
      after the bytes `h` have been output. */
  ghost function Codes(lit: seq<nat>, dist: seq<nat>, s: seq<bool>, p: nat, h: seq<Byte>): (r: Outcome)
    ensures h <= r.out && (r.Good? ==> p < r.p <= |s|)
    decreases |s| - p
  {
    if p > |s| then Bad(h)
    else
      match NextToken(lit, dist, s, p)
      case Literal(b, q) => Codes(lit, dist, s, q, h + [b])
      case Match(n, d, q) => if 1 <= d <= |h| then Codes(lit, dist, s, q, Copy(h, n, d)) else Bad(h)
      case End(q) => Good(h, q)
      case Wrong => Bad(h)
  }

  /** Bytes stored as they are (section 3.2.4). */
  ghost function StoredBytes(s: seq<bool>, p: nat, n: nat): (r: seq<Byte>)
    requires p + 8 * n <= |s|
    ensures |r| == n
    decreases n
  {
    if n == 0 then []
    else
      LsbBound(s[p..p + 8]);
      assert Pow2(8) == 256;
      [Lsb(s[p..p + 8])] + StoredBytes(s, p + 8, n - 1)
  }

  function ByteBoundary(p: nat): nat { (p + 7) / 8 * 8 }

  ghost function Stored(s: seq<bool>, p: nat, h: seq<Byte>): (r: Outcome)
    ensures h <= r.out && (r.Good? ==> p < r.p <= |s|)
  {
    var q := ByteBoundary(p);
    match (Number(s, q, 16), Number(s, q + 16, 16))
    case (Some(n), Some(c)) =>
      if n + c != 0xFFFF then Bad(h)
      else if q + 32 + 8 * n <= |s| then Good(h + StoredBytes(s, q + 32, n), q + 32 + 8 * n)
      else Bad(h + StoredBytes(s, q + 32, (|s| - (q + 32)) / 8))
    case _ => Bad(h)
  }

  function Repeat(n: nat, x: nat): seq<nat> { seq(n, _ => x) }

  /** The code lengths of the two alphabets, `n` in all, coded with the code
      length code `cl` (section 3.2.7). `ll` are the lengths so far. */
  ghost function Lengths(cl: seq<nat>, s: seq<bool>, p: nat, n: nat, ll: seq<nat>): (r: Option<(seq<nat>, nat)>)
    ensures r.Some? && p <= |s| ==> |r.value.0| == n && p <= r.value.1 <= |s|
    decreases |s| - p
  {
    if |ll| >= n then (if |ll| == n then Some((ll, p)) else None)
    else if p > |s| then None
    else
      match Decode(cl, s[p..])
      case Found(sym, len) =>
        var q := p + len;
        if sym < 16 then Lengths(cl, s, q, n, ll + [sym])
        else
          var bits := if sym == 16 then 2 else if sym == 17 then 3 else 7;
          var value := if sym == 16 && ll != [] then ll[|ll| - 1] else 0;
          (match Number(s, q, bits)
           case Some(x) => Lengths(cl, s, q + bits, n, ll + Repeat((if sym == 18 then 11 else 3) + x, value))
           case None => None)
      case _ => None
  }

  /** The `nb` lengths of the code length code, in the order they are sent. */
  ghost function CodeLengthCode(s: seq<bool>, p: nat, nb: nat): (r: seq<nat>)
    requires nb <= 19 && p + 3 * nb <= |s|
    ensures |r| == 19
  {
    if nb == 0 then Repeat(19, 0)
    else CodeLengthCode(s, p, nb - 1)[BORDER[nb - 1] := Lsb(s[p + 3 * (nb - 1)..p + 3 * nb])]
  }

  /** Code sets the decoder accepts: neither over-subscribed nor, unless no code
      is longer than one bit, incomplete. */
  ghost predicate Acceptable(lens: seq<nat>) {
    && (forall i :: 0 <= i < |lens| ==> lens[i] <= BMAX)
    && Kraft(lens, BMAX) <= Pow2(BMAX)
    && (Kraft(lens, BMAX) == Pow2(BMAX) || forall i :: 0 <= i < |lens| ==> lens[i] <= 1)
  }

  datatype Coding = Coding(lit: seq<nat>, dist: seq<nat>, p: nat)

  /** The header of a block with its own codes (section 3.2.7). */
  ghost function Codings(s: seq<bool>, p: nat): (r: Option<Coding>)
    ensures r.Some? ==> p <= r.value.p <= |s|
  {
    match (Number(s, p, 5), Number(s, p + 5, 5), Number(s, p + 10, 4))
    case (Some(hlit), Some(hdist), Some(hclen)) =>
      var nl, nd, nb := 257 + hlit, 1 + hdist, 4 + hclen;
      var q := p + 14 + 3 * nb;
      if nb > 19 || q > |s| || !Acceptable(CodeLengthCode(s, p + 14, nb)) then None
      else
        (match Lengths(CodeLengthCode(s, p + 14, nb), s, q, nl + nd, [])
         case Some(l) => if Acceptable(l.0[..nl]) then Some(Coding(l.0[..nl], l.0[nl..], l.1)) else None
         case None => None)
    case _ => None
  }

  ghost function Dynamic(s: seq<bool>, p: nat, h: seq<Byte>): (r: Outcome)
    ensures h <= r.out && (r.Good? ==> p < r.p <= |s|)
  {
    match Codings(s, p)
    case Some(c) => Codes(c.lit, c.dist, s, c.p, h)
    case None => Bad(h)
  }

  /** The fixed codes of section 3.2.6. */
  function FixedLiterals(): seq<nat> {
    Repeat(144, 8) + Repeat(112, 9) + Repeat(24, 7) + Repeat(8, 8)
  }

  function FixedDistances(): seq<nat> { Repeat(30, 5) }

  ghost function Block(kind: nat, s: seq<bool>, p: nat, h: seq<Byte>): (r: Outcome)
    ensures h <= r.out && (r.Good? ==> p < r.p <= |s|)
  {
    if kind == 0 then Stored(s, p, h)
    else if kind == 1 then Codes(FixedLiterals(), FixedDistances(), s, p, h)
    else if kind == 2 then Dynamic(s, p, h)
    else Bad(h)
  }

  /** A sequence of blocks up to one marked final (section 3.2.3). */
  ghost function Inflated(s: seq<bool>, p: nat, h: seq<Byte>): (r: Outcome)
    ensures h <= r.out && (r.Good? ==> p < r.p <= |s|)
    decreases |s| - p
  {
    if p + 3 > |s| then Bad(h)
    else
      var final, kind := s[p], Lsb(s[p + 1..p + 3]);
      match Block(kind, s, p + 3, h)
      case Bad(h') => Bad(h')
      case Good(h', q) => if final then Good(h', q) else Inflated(s, q, h')
  }

  // ---------------------------------------------------------------- older history

  lemma {:induction false} CopyAfter(w: seq<Byte>, h: seq<Byte>, n: nat, d: nat)
    requires 1 <= d <= |h|
    ensures Copy(w + h, n, d) == w + Copy(h, n, d)
    decreases n
  {
    if n > 0 {
      var b := h[|h| - d];
      assert (w + h)[|w + h| - d] == b;
      assert (w + h) + [b] == w + (h + [b]);
      CopyAfter(w, h + [b], n - 1, d);
      assert Copy(h, n, d) == Copy(h + [b], n - 1, d);
    }
  }

  /** What a valid stream decodes to does not depend on what went before it. */
  lemma {:induction false} CodesAfter(w: seq<Byte>, lit: seq<nat>, dist: seq<nat>, s: seq<bool>, p: nat, h: seq<Byte>)
    requires Codes(lit, dist, s, p, h).Good?
    ensures var r := Codes(lit, dist, s, p, h); Codes(lit, dist, s, p, w + h) == Good(w + r.out, r.p)
    decreases |s| - p
  {
    match NextToken(lit, dist, s, p)
    case Literal(b, q) =>
      assert (w + h) + [b] == w + (h + [b]);
      CodesAfter(w, lit, dist, s, q, h + [b]);
    case Match(n, d, q) =>
      CopyAfter(w, h, n, d);
      CodesAfter(w, lit, dist, s, q, Copy(h, n, d));
    case _ =>
  }

  lemma StoredAfter(w: seq<Byte>, s: seq<bool>, p: nat, h: seq<Byte>)
    requires Stored(s, p, h).Good?
    ensures var r := Stored(s, p, h); Stored(s, p, w + h) == Good(w + r.out, r.p)
  {
    var q := ByteBoundary(p);
    var n := Number(s, q, 16).value;
    assert (w + h) + StoredBytes(s, q + 32, n) == w + (h + StoredBytes(s, q + 32, n));
  }

  lemma DynamicAfter(w: seq<Byte>, s: seq<bool>, p: nat, h: seq<Byte>)
    requires Dynamic(s, p, h).Good?
    ensures var r := Dynamic(s, p, h); Dynamic(s, p, w + h) == Good(w + r.out, r.p)
  {
    hide Lsb, Codes, Lengths, CodeLengthCode;
    var c := Codings(s, p).value;
    CodesAfter(w, c.lit, c.dist, s, c.p, h);
  }

  lemma BlockAfter(w: seq<Byte>, kind: nat, s: seq<bool>, p: nat, h: seq<Byte>)
    requires Block(kind, s, p, h).Good?
    ensures var r := Block(kind, s, p, h); Block(kind, s, p, w + h) == Good(w + r.out, r.p)
  {
    if kind == 0 {
      StoredAfter(w, s, p, h);
    } else if kind == 1 {
      CodesAfter(w, FixedLiterals(), FixedDistances(), s, p, h);
    } else {
      DynamicAfter(w, s, p, h);
    }
  }

  lemma {:induction false} InflatedAfter(w: seq<Byte>, s: seq<bool>, p: nat, h: seq<Byte>)
    requires Inflated(s, p, h).Good?
    ensures var r := Inflated(s, p, h); Inflated(s, p, w + h) == Good(w + r.out, r.p)
    decreases |s| - p
  {
    var kind := Lsb(s[p + 1..p + 3]);
    BlockAfter(w, kind, s, p + 3, h);
    var r := Block(kind, s, p + 3, h);
    if !s[p] {
      InflatedAfter(w, s, r.p, r.out);
    }
  }
}
