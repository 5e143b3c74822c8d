/** The 32K circular window of inflate.c and its output routine. */
module SlidingWindow {
  import opened Common
  import opened Deflate

  const WSIZE := 32768

  class Window {
    const slide: array<Byte>
    /** What the n-th call of gz_output returns. */
    const sink: nat -> int
    /** Contents of the window when decoding starts. */
    ghost const before: seq<Byte>
    var wp: nat
    var flushed: seq<Byte>
    var calls: nat

    /** Everything decoded, after the initial contents of the window. */
    ghost function History(): seq<Byte>
      reads this, slide
      requires wp <= slide.Length
    {
      before + flushed + slide[..wp]
    }

    /** The output routine has accepted the first `n` windows. */
    ghost predicate TookAll(n: nat) { forall i :: 0 <= i < n ==> sink(i) == 0 }

    /** The output routine has just refused a window, and none before it. */
    ghost predicate Refusing(code: int)
      reads `calls
    {
      Refused() && code == sink(calls - 1)
    }

    ghost predicate Refused()
      reads `calls
    {
      calls > 0 && sink(calls - 1) != 0 && TookAll(calls - 1)
    }

    /** Each full window has been flushed, and nothing else. The rest of the
        window still holds the bytes decoded before those in it. */
    ghost predicate Ring()
      reads this, slide
    {
      && slide.Length == WSIZE == |before| && wp <= WSIZE
      && |flushed| == calls * WSIZE && TookAll(calls)
      && slide[wp..] == (before + flushed)[|before| + |flushed| - WSIZE + wp..]
    }

    ghost predicate Valid()
      reads this, slide
    {
      Ring() && wp < WSIZE
    }

    constructor (s: array<Byte>, out: nat -> int)
      requires s.Length == WSIZE
      ensures Valid() && slide == s && sink == out && flushed == [] && wp == 0
      ensures before == s[..] && History() == before
    {
      slide, sink, before := s, out, s[..];
      wp, flushed, calls := 0, [], 0;
    }

    /** The byte `d` places back is found in the window. */
    lemma Back(d: nat)
      requires Ring() && wp < WSIZE && 1 <= d <= WSIZE
      ensures |History()| >= d && slide[(wp - d) % WSIZE] == History()[|History()| - d]
    {
      var h, old' := History(), before + flushed;
      if d <= wp {
        assert (wp - d) % WSIZE == wp - d;
        assert h[|h| - d] == slide[..wp][wp - d];
      } else {
        var i := wp - d + WSIZE;
        assert (wp - d) % WSIZE == i;
        assert slide[i] == slide[wp..][i - wp];
        assert h[|h| - d] == old'[|old'| + wp - d];
      }
    }

    lemma InRing()
      requires Ring()
      ensures slide.Length == WSIZE && wp <= WSIZE <= |History()|
    {
    }

    /** FLUSH of a full window or of what is left at the end. */
    method Flush() returns (r: int)
      requires Ring()
      modifies `flushed, `calls
      ensures r == sink(old(calls)) && calls == old(calls) + 1
      ensures flushed == if r == 0 then old(flushed) + slide[..wp] else old(flushed)
    {
      r := sink(calls);
      calls := calls + 1;
      if r == 0 {
        flushed := flushed + slide[..wp];
      }
    }

    /** The last flush: everything decoded has been output. */
    method FlushRest() returns (r: int)
      requires Valid()
      modifies `flushed, `calls
      ensures r == sink(old(calls)) && calls == old(calls) + 1 == |old(History())| / WSIZE
      ensures before + flushed <= old(History())
      ensures if r == 0 then before + flushed == old(History()) && TookAll(calls) else Refusing(r)
    {
      ghost var h := History();
      r := Flush();
      if r == 0 {
        assert before + flushed == h;
      }
    }

    /** Stores one byte and flushes the window when it is full. A non-zero
        result is the code with which the output routine refused. */
    method Put(b: Byte) returns (r: int)
      requires Valid()
      modifies this, slide
      ensures wp <= slide.Length && History() == old(History()) + [b]
      ensures if r == 0 then Valid() else Refusing(r)
    {
      Store(b);
      r := Wrap();
    }

    method Store(b: Byte)
      requires Valid()
      modifies `wp, slide
      ensures Ring() && wp == old(wp) + 1
      ensures History() == old(History()) + [b]
      ensures flushed == old(flushed) && calls == old(calls)
    {
      ghost var rest := slide[wp..];
      slide[wp] := b;
      wp := wp + 1;
      assert slide[..wp] == old(slide[..wp]) + [b];
      assert slide[wp..] == rest[1..];
    }

    method Wrap() returns (r: int)
      requires Ring()
      modifies `wp, `flushed, `calls
      ensures wp <= slide.Length && History() == old(History())
      ensures if r == 0 then Valid() else Refusing(r)
      ensures r == 0 && old(wp) < WSIZE ==> wp == old(wp)
      ensures r == 0 && old(wp) == WSIZE ==> wp == 0
    {
      r := 0;
      if wp == WSIZE {
        ghost var h := History();
        r := Flush();
        if r == 0 {
          wp := 0;
          assert History() == h + slide[..0];
          assert slide[wp..] == slide[..WSIZE];
        }
      }
    }

    /** Copies `n` bytes from `d` places back (lines 700-721): in chunks that
        end where the source or the destination reaches the end of the window. */
    method CopyMatch(n: nat, dist: nat) returns (r: int)
      requires Valid() && n >= 1 && 1 <= dist <= WSIZE
      modifies this, slide
      ensures dist <= |old(History())|
      ensures wp <= slide.Length && old(History()) <= History() <= Copy(old(History()), n, dist)
      ensures if r == 0 then Valid() && History() == Copy(old(History()), n, dist) else Refusing(r)
    {
      hide Copy, Ring, History;
      InRing();
      ghost var h0 := History();
      var left, d := n, (wp - dist) % WSIZE;
      r := 0;
      while true
        invariant Valid() && 0 < left <= n && d % WSIZE == (wp - dist) % WSIZE && d <= WSIZE
        invariant dist <= |h0| <= |History()| && h0 <= History()
        invariant Copy(h0, n, dist) == Copy(History(), left, dist)
        decreases left
      {
        d := d % WSIZE;
        var e := WSIZE - (if d > wp then d else wp);
        e := if e > left then left else e;
        left := left - e;
        d := CopyRun(d, e, dist, left);
        r := Wrap();
        if r != 0 || left == 0 {
          CopyNothing(History(), dist);
          return;
        }
      }
    }

    /** The inner loop: bytes one by one, so that a run may overlap itself. */
    method CopyRun(d0: nat, e0: nat, dist: nat, ghost left: nat) returns (d: nat)
      requires Valid() && 1 <= dist <= WSIZE && d0 == (wp - dist) % WSIZE
      requires 1 <= e0 && d0 + e0 <= WSIZE && wp + e0 <= WSIZE
      requires dist <= |History()|
      modifies `wp, slide
      ensures Ring() && wp == old(wp) + e0 && d == d0 + e0
      ensures |History()| >= dist && old(History()) <= History()
      ensures Copy(old(History()), left + e0, dist) == Copy(History(), left, dist)
    {
      hide Copy, Ring, History;
      var e := e0;
      d := d0;
      InRing();
      ghost var h0 := History();
      while e > 0
        invariant Ring() && 0 <= e <= e0 && wp == old(wp) + e0 - e && d == d0 + e0 - e
        invariant h0 <= History() && dist <= |h0|
        invariant Copy(h0, left + e0, dist) == Copy(History(), left + e, dist)
      {
        StepBack(old(wp), wp, d0, d, dist);
        Back(dist);
        CopyStep(History(), left + e, dist);
        Store(slide[d]);
        d := d + 1;
        e := e - 1;
      }
    }
  }

  lemma CopyStep(h: seq<Byte>, n: nat, d: nat)
    requires 1 <= d <= |h| && n > 0
    ensures Copy(h, n, d) == Copy(h + [h[|h| - d]], n - 1, d)
  {
  }

  lemma CopyNothing(h: seq<Byte>, d: nat)
    requires 1 <= d <= |h|
    ensures Copy(h, 0, d) == h
  {
  }

  /** Source and destination advance together. */
  lemma StepBack(w0: nat, w: nat, d0: nat, d: nat, dist: nat)
    requires w0 <= w < WSIZE && d0 <= d < WSIZE && w - w0 == d - d0
    requires 1 <= dist <= WSIZE && d0 == (w0 - dist) % WSIZE
    ensures d == (w - dist) % WSIZE
  {
  }
}
