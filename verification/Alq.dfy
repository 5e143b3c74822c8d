/** The asynchronous logging queue of kern_alq.c. Each method is one region the
    source runs with the queue lock held; a flush is three, because it gives up
    the lock while it writes. */
module Alq {
  import opened Common

  /** Where the data lies in the buffer: the source's counters. */
  datatype Layout = Layout(size: nat, free: nat, head: nat, tail: nat, wrap: nat) {
    predicate Empty() { free == size && head == tail == wrap == 0 }

    predicate Straight() { tail < head < size && wrap == 0 && free + head == size + tail }

    predicate Wrapped() { head <= tail < size && tail + wrap <= size && free + head == tail }

    predicate Valid() { size > 0 && (Empty() || Straight() || Wrapped()) }
  }

  /** The bytes in the queue, oldest first; the hole is not among them. */
  function Pending(q: Layout, buf: seq<Byte>): seq<Byte>
    requires q.Valid() && |buf| == q.size
  {
    if q.Empty() then []
    else if q.tail < q.head then buf[q.tail..q.head]
    else buf[q.tail..q.size - q.wrap] + buf[..q.head]
  }

  /** `data` written at the head, in two pieces when the buffer ends first. */
  function Stored(q: Layout, buf: seq<Byte>, data: seq<Byte>): (r: seq<Byte>)
    requires q.Valid() && |buf| == q.size && |data| <= q.free
    ensures |r| == |buf|
  {
    var room := q.size - q.head;
    if |data| <= room then buf[..q.head] + data + buf[q.head + |data|..]
    else data[room..] + buf[|data| - room..q.head] + data[..room]
  }

  function Longer(q: Layout, n: nat): Layout
    requires q.Valid() && 0 < n <= q.free
  {
    var h := if q.head + n < q.size then q.head + n else q.head + n - q.size;
    q.(free := q.free - n, head := h)
  }

  /** Posting adds the message at the end and disturbs nothing. */
  lemma StoredPending(q: Layout, buf: seq<Byte>, data: seq<Byte>)
    requires q.Valid() && |buf| == q.size && 0 < |data| <= q.free
    ensures Longer(q, |data|).Valid() && Longer(q, |data|).head < Longer(q, |data|).size == q.size
    ensures Pending(Longer(q, |data|), Stored(q, buf, data)) == Pending(q, buf) + data
  {
    if q.Wrapped() && !q.Empty() {
      StoredWrapped(q, buf, data);
    } else if |data| < q.size - q.head {
      StoredBehind(q, buf, data);
    } else {
      StoredAround(q, buf, data);
    }
  }

  /** Data put in place of as many bytes from `h` on. */
  lemma Spliced(buf: seq<Byte>, h: nat, data: seq<Byte>, i: nat, j: nat)
    requires h + |data| <= i <= j <= |buf|
    ensures var b := buf[..h] + data + buf[h + |data|..];
            |b| == |buf| && b[..h + |data|] == buf[..h] + data && b[i..j] == buf[i..j]
  {
  }

  lemma PendingWrapped(q: Layout, buf: seq<Byte>)
    requires q.Wrapped() && !q.Empty() && |buf| == q.size
    ensures q.Valid() && Pending(q, buf) == buf[q.tail..q.size - q.wrap] + buf[..q.head]
  {
  }

  lemma LongerWrapped(q: Layout, n: nat)
    requires q.Wrapped() && !q.Empty() && 0 < n <= q.free
    ensures q.Valid() && n <= q.size - q.head && q.head + n <= q.tail
    ensures Longer(q, n) == q.(free := q.free - n, head := q.head + n)
    ensures Longer(q, n).Wrapped() && !Longer(q, n).Empty()
  {
  }

  lemma StoredWrapped(q: Layout, buf: seq<Byte>, data: seq<Byte>)
    requires q.Wrapped() && !q.Empty() && |buf| == q.size && 0 < |data| <= q.free
    ensures Longer(q, |data|).Wrapped() && !Longer(q, |data|).Empty()
    ensures Pending(Longer(q, |data|), Stored(q, buf, data)) == Pending(q, buf) + data
  {
    hide Pending, Longer, Layout.Valid, Layout.Empty;
    LongerWrapped(q, |data|);
    Spliced(buf, q.head, data, q.tail, q.size - q.wrap);
    PendingWrapped(q, buf);
    PendingWrapped(Longer(q, |data|), Stored(q, buf, data));
  }

  lemma PendingFlat(q: Layout, buf: seq<Byte>)
    requires (q.Empty() || q.Straight()) && |buf| == q.size > 0
    ensures q.Valid() && Pending(q, buf) == buf[q.tail..q.head]
  {
    assert buf[0..0] == [];
  }

  lemma StoredBehind(q: Layout, buf: seq<Byte>, data: seq<Byte>)
    requires (q.Empty() || q.Straight()) && |buf| == q.size && 0 < |data| <= q.free && |data| < q.size - q.head
    ensures Longer(q, |data|).Straight()
    ensures Pending(Longer(q, |data|), Stored(q, buf, data)) == Pending(q, buf) + data
  {
    hide Pending;
    var b := Stored(q, buf, data);
    PendingFlat(q, buf);
    PendingFlat(Longer(q, |data|), b);
    assert b[q.tail..q.head + |data|] == buf[q.tail..q.head] + data;
  }

  lemma StoredAround(q: Layout, buf: seq<Byte>, data: seq<Byte>)
    requires (q.Empty() || q.Straight()) && |buf| == q.size && 0 < |data| <= q.free && |data| >= q.size - q.head
    ensures Longer(q, |data|).Wrapped() && !Longer(q, |data|).Empty()
    ensures Pending(Longer(q, |data|), Stored(q, buf, data)) == Pending(q, buf) + data
  {
    hide Pending;
    var room := q.size - q.head;
    var b := Stored(q, buf, data);
    PendingFlat(q, buf);
    PendingWrapped(Longer(q, |data|), b);
    assert data == data[..room] + data[room..];
    StoredEnds(q, buf, data);
    assert b[q.tail..q.size] == buf[q.tail..q.head] + data[..room];
  }

  /** Where the two parts of the message are. */
  lemma StoredEnds(q: Layout, buf: seq<Byte>, data: seq<Byte>)
    requires (q.Empty() || q.Straight()) && |buf| == q.size && 0 < |data| <= q.free && |data| >= q.size - q.head
    ensures var room, b := q.size - q.head, Stored(q, buf, data);
            && b[..|data| - room] == data[room..]
            && (forall i :: q.tail <= i < q.head ==> b[i] == buf[i])
            && (forall i :: q.head <= i < q.size ==> b[i] == data[i - q.head])
  {
  }

  /** The early wrap of lines 700-716 leaves a hole and keeps the data. */
  function WrappedEarly(q: Layout): Layout
    requires q.Straight()
  {
    q.(wrap := q.size - q.head, free := q.tail, head := 0)
  }

  lemma WrappedEarlyPending(q: Layout, buf: seq<Byte>)
    requires q.Straight() && |buf| == q.size
    ensures WrappedEarly(q).Valid() && Pending(WrappedEarly(q), buf) == Pending(q, buf)
  {
    assert buf[..0] == [];
  }

  /** The free bytes in one piece at the head. */
  function Contiguous(q: Layout): nat
    requires q.Valid()
  {
    if q.head <= q.tail then q.free else q.size - q.head
  }

  /** They are all that a message can use without going around the end. */
  lemma ContiguousMost(q: Layout, n: nat)
    requires q.Valid()
    ensures n <= Contiguous(q) <==> n <= q.free && q.head + n <= q.size
  {
  }

  /** A grant of `len` bytes is possible at once: behind the data, or, when the
      data lie straight, before them. */
  predicate Grantable(q: Layout, len: nat) {
    (len <= q.free && q.head + len <= q.size) || (q.Straight() && len <= q.tail)
  }

  /** The byte at `i` is one to be written to the file, or in the hole. */
  predicate Occupied(q: Layout, i: nat) {
    if q.tail < q.head then q.tail <= i < q.head else q.free != q.size && (i < q.head || q.tail <= i)
  }

  predicate Unoccupied(q: Layout, at: nat, len: nat) {
    at + len <= q.size && forall i :: at <= i < at + len ==> !Occupied(q, i)
  }

  /** A grant misses no stretch of unoccupied bytes. */
  lemma GrantsAll(q: Layout, len: nat)
    requires q.Valid() && 0 < len
    ensures Grantable(q, len) <==> exists at: nat :: Unoccupied(q, at, len)
  {
    if Grantable(q, len) {
      assert Unoccupied(q, if q.head + len <= q.size && len <= q.free then q.head else 0, len);
    }
    if at: nat :| Unoccupied(q, at, len) {
      assert !Occupied(q, at) && !Occupied(q, at + len - 1);
      if q.Straight() && at < q.tail <= at + len - 1 {
        assert Occupied(q, q.tail);
      }
    }
  }

  /** What is pending depends on the occupied bytes alone. */
  lemma OccupiedIsPending(q: Layout, buf: seq<Byte>, buf': seq<Byte>)
    requires q.Valid() && |buf| == |buf'| == q.size
    requires forall i :: 0 <= i < q.size && Occupied(q, i) ==> buf[i] == buf'[i]
    ensures Pending(q, buf) == Pending(q, buf')
  {
    assert forall i :: q.tail <= i < q.head ==> Occupied(q, i);
  }

  lemma WithinSize(q: Layout)
    requires q.Valid()
    ensures q.free <= q.size && q.tail <= q.size
  {
  }

  /** The early wrap is called for. */
  predicate WrapsEarly(q: Layout, len: nat, waitok: bool) {
    q.Straight() && q.size < q.head + len && (len <= q.tail || waitok)
  }

  // ---------------------------------------------------------------- flushing

  /** Extents a flush took with it when it gave up the lock, its copy of
      aq_wrapearly, and how many bytes the file has so far. */
  datatype Flight = Idle | Flying(len0: nat, len1: nat, wrap: nat, written: nat)

  /** Lines 325-352. */
  function Extents(q: Layout): Flight
    requires q.Valid() && q.free != q.size
  {
    if q.tail < q.head then Flying(q.head - q.tail, 0, q.wrap, 0)
    else if q.head == 0 then Flying(q.size - q.tail - q.wrap, 0, q.wrap, 0)
    else Flying(q.size - q.tail - q.wrap, q.head, q.wrap, 0)
  }

  /** What a flush in progress took is still the front of the queue. It began
      either before the data wrapped (first case) or after. */
  predicate InFlight(q: Layout, f: Flight) {
    && f.Flying? && q.Valid() && q.free != q.size && f.written <= f.len0 + f.len1
    && if q.tail < q.head then f.wrap == f.len1 == 0 < f.len0 && q.tail + f.len0 <= q.head
       else (f.len0 > 0 && f.wrap == f.len1 == 0 && q.tail + f.len0 < q.size && q.tail + f.len0 <= q.size - q.wrap)
            || (f.wrap == q.wrap && q.tail + f.len0 == q.size - q.wrap && f.len1 <= q.head)
  }

  /** The bytes of the extents, as the buffer now stands. */
  function Taken(q: Layout, f: Flight, buf: seq<Byte>): (r: seq<Byte>)
    requires InFlight(q, f) && |buf| == q.size
    ensures |r| == f.len0 + f.len1
  {
    buf[q.tail..q.tail + f.len0] + buf[..f.len1]
  }

  lemma TakenIsFront(q: Layout, f: Flight, buf: seq<Byte>)
    requires InFlight(q, f) && |buf| == q.size
    ensures Taken(q, f, buf) <= Pending(q, buf)
  {
    hide Pending;
    if q.tail < q.head {
      PendingStraight(q, buf);
      assert buf[..0] == [];
      assert buf[q.tail..q.head][..f.len0] == buf[q.tail..q.tail + f.len0];
    } else {
      PendingWrapped(q, buf);
      FrontOf(buf[q.tail..q.size - q.wrap], buf[..q.head], f.len0, f.len1);
      assert buf[q.tail..q.size - q.wrap][..f.len0] == buf[q.tail..q.tail + f.len0];
      assert f.len1 <= q.head ==> buf[..q.head][..f.len1] == buf[..f.len1];
    }
  }

  lemma PendingStraight(q: Layout, buf: seq<Byte>)
    requires q.Straight() && |buf| == q.size
    ensures q.Valid() && Pending(q, buf) == buf[q.tail..q.head]
  {
  }

  lemma FrontOf(a: seq<Byte>, b: seq<Byte>, m: nat, n: nat)
    requires m <= |a| && n <= |b| && (n == 0 || m == |a|)
    ensures a[..m] + b[..n] <= a + b
  {
  }

  function Mod(x: nat, n: nat): nat
    requires n > 0
  {
    x % n
  }

  lemma ModSmall(x: nat, n: nat)
    requires x < n
    ensures Mod(x, n) == x
  {
  }

  lemma ModOnce(x: nat, n: nat)
    requires x < n
    ensures Mod(n + x, n) == x
  {
  }

  /** Lines 383-401. */
  function Flushed(q: Layout, f: Flight): Layout
    requires InFlight(q, f)
  {
    var total := f.len0 + f.len1 + f.wrap;
    var q1 := q.(tail := Mod(q.tail + total, q.size), free := q.free + total, wrap := if f.wrap != 0 then 0 else q.wrap);
    if q1.free == q1.size then q1.(head := 0, tail := 0) else q1
  }

  /** The end of a flush removes exactly what it took, and the hole with it. */
  lemma FlushedPending(q: Layout, f: Flight, buf: seq<Byte>)
    requires InFlight(q, f) && |buf| == q.size
    ensures Flushed(q, f).Valid() && Flushed(q, f).size == q.size
    ensures Pending(q, buf) == Taken(q, f, buf) + Pending(Flushed(q, f), buf)
  {
    hide Mod;
    if q.tail < q.head {
      FlushedStraight(q, f, buf);
    } else if f.wrap == q.wrap && q.tail + f.len0 == q.size - q.wrap {
      FlushedAround(q, f, buf);
    } else {
      FlushedBefore(q, f, buf);
    }
  }

  lemma FlushedStraight(q: Layout, f: Flight, buf: seq<Byte>)
    requires InFlight(q, f) && |buf| == q.size && q.tail < q.head
    ensures Flushed(q, f).Valid()
    ensures Pending(q, buf) == Taken(q, f, buf) + Pending(Flushed(q, f), buf)
  {
    hide Mod;
    ModSmall(q.tail + f.len0, q.size);
    assert buf[q.tail..q.head] == buf[q.tail..q.tail + f.len0] + buf[q.tail + f.len0..q.head];
    assert buf[..0] == [];
  }

  lemma FlushedAroundLayout(q: Layout, f: Flight)
    requires InFlight(q, f) && q.head <= q.tail && f.wrap == q.wrap && q.tail + f.len0 == q.size - q.wrap
    ensures Flushed(q, f) == if q.head == f.len1 then Layout(q.size, q.size, 0, 0, 0)
                             else Layout(q.size, q.size - (q.head - f.len1), q.head, f.len1, 0)
  {
    hide Mod;
    assert q.tail + (f.len0 + f.len1 + f.wrap) == q.size + f.len1;
    ModOnce(f.len1, q.size);
  }

  lemma FlushedAround(q: Layout, f: Flight, buf: seq<Byte>)
    requires InFlight(q, f) && |buf| == q.size && q.head <= q.tail && f.wrap == q.wrap && q.tail + f.len0 == q.size - q.wrap
    ensures Flushed(q, f).Valid()
    ensures Pending(q, buf) == Taken(q, f, buf) + Pending(Flushed(q, f), buf)
  {
    hide Flushed;
    FlushedAroundLayout(q, f);
    assert buf[..q.head] == buf[..f.len1] + buf[f.len1..q.head];
  }

  lemma FlushedBeforeLayout(q: Layout, f: Flight)
    requires InFlight(q, f) && q.head <= q.tail && q.tail + f.len0 < q.size
    requires f.len0 > 0 && f.wrap == f.len1 == 0 && q.tail + f.len0 <= q.size - q.wrap
    ensures Flushed(q, f) == Layout(q.size, q.free + f.len0, q.head, q.tail + f.len0, q.wrap)
  {
    hide Mod;
    ModSmall(q.tail + f.len0, q.size);
  }

  /** The data wrapped after the flush began. */
  lemma FlushedBefore(q: Layout, f: Flight, buf: seq<Byte>)
    requires InFlight(q, f) && |buf| == q.size && q.head <= q.tail && q.tail + f.len0 < q.size
    requires f.len0 > 0 && f.wrap == f.len1 == 0 && q.tail + f.len0 <= q.size - q.wrap
    ensures Flushed(q, f).Valid()
    ensures Pending(q, buf) == Taken(q, f, buf) + Pending(Flushed(q, f), buf)
  {
    hide Flushed;
    FlushedBeforeLayout(q, f);
    assert buf[q.tail..q.size - q.wrap] == buf[q.tail..q.tail + f.len0] + buf[q.tail + f.len0..q.size - q.wrap];
    assert buf[..0] == [];
  }

  /** A flush takes everything that is in the queue when it begins. */
  lemma FlushedWhole(q: Layout, written: nat)
    requires q.Valid() && q.free != q.size && written <= Extents(q).len0 + Extents(q).len1
    ensures var f := Extents(q).(written := written); InFlight(q, f) && Flushed(q, f) == Layout(q.size, q.size, 0, 0, 0)
  {
    hide Mod;
    if q.tail < q.head {
      ModSmall(q.head, q.size);
    } else {
      FlushedAroundLayout(q, Extents(q).(written := written));
    }
  }

  lemma EmptyPending(q: Layout, buf: seq<Byte>)
    requires q.Empty() && q.Valid() && |buf| == q.size
    ensures Pending(q, buf) == []
  {
  }

  /** A producer does not touch what a flush took. */
  lemma LongerInFlight(q: Layout, f: Flight, n: nat)
    requires InFlight(q, f) && 0 < n <= q.free
    ensures InFlight(Longer(q, n), f)
  {
  }

  lemma WrappedEarlyInFlight(q: Layout, f: Flight)
    requires InFlight(q, f) && q.Straight()
    ensures InFlight(WrappedEarly(q), f)
  {
  }

  lemma StoredKeepsTaken(q: Layout, f: Flight, buf: seq<Byte>, data: seq<Byte>)
    requires InFlight(q, f) && |buf| == q.size && 0 < |data| <= q.free
    ensures InFlight(Longer(q, |data|), f)
    ensures Taken(Longer(q, |data|), f, Stored(q, buf, data)) == Taken(q, f, buf)
  {
    LongerInFlight(q, f, |data|);
    StoredPending(q, buf, data);
    SameFront(q, f, buf, Longer(q, |data|), Stored(q, buf, data));
  }

  lemma SameFront(q: Layout, f: Flight, buf: seq<Byte>, q': Layout, buf': seq<Byte>)
    requires InFlight(q, f) && |buf| == q.size && InFlight(q', f) && |buf'| == q'.size
    requires Pending(q, buf) <= Pending(q', buf')
    ensures Taken(q', f, buf') == Taken(q, f, buf)
  {
    hide Pending, InFlight, Layout.Valid, Taken;
    TakenIsFront(q, f, buf);
    TakenIsFront(q', f, buf');
  }

  // ---------------------------------------------------------------- the queue

  /** Where a producer's lock-held region ends. */
  datatype Outcome = Posted | WouldBlock | SleepOrdered | SleepSpace

  /** Where alq_getn's lock-held region ends; with Granted it keeps the lock. */
  datatype Grant = Granted | Null | WaitSpace

  /** One lock-held step of a producer, of the flush, or of alq_shutdown. */
  datatype Event =
    | Write(data: seq<Byte>, nowait: bool, noactivate: bool)
    | WriteAgain(data: seq<Byte>, noactivate: bool)
    | Get(len: nat, nowait: bool, waitok: bool)
    | GetAgain(len: nat)
    | Fill(at: nat, byte: Byte)
    | PostUsed(used: nat, noactivate: bool)
    | Begin
    | WriteOut
    | End
    | Shut

  /** All there is to a queue at one moment. */
  datatype State = State(lay: Layout, buf: seq<Byte>, waiters: nat, active: bool, shutdown: bool, wanted: bool,
                         flight: Flight, held: nat, file: seq<Byte>, posted: seq<Byte>)
  {
    ghost predicate Ok() {
      lay.Valid() && |buf| == lay.size && (flight.Flying? ==> InFlight(lay, flight)) && held <= lay.free && lay.head + held <= lay.size
    }
  }

  /** `t` is `s` with a message behind the others. */
  ghost predicate Wrote(s: State, t: State, data: seq<Byte>, noactivate: bool)
    requires s.Ok() && 0 < |data| <= s.lay.free
  {
    t == s.(lay := Longer(s.lay, |data|), buf := Stored(s.lay, s.buf, data), waiters := t.waiters,
            active := s.active || !noactivate, posted := s.posted + data)
  }

  /** What a step makes of the queue. */
  ghost predicate Did(e: Event, ordered: bool, s: State, t: State)
    requires s.Ok()
  {
    match e
    case Write(data, nowait, noactivate) =>
      if s.shutdown || |data| == 0 || s.lay.size < |data| then t == s
      else if s.lay.free < |data| && (nowait || !s.active) then t == s
      else if ordered && s.waiters > 0 then t == s.(waiters := s.waiters + 1)
      else if s.lay.free < |data| then t == s.(waiters := s.waiters + 1, wanted := true)
      else Wrote(s, t, data, noactivate) && t.waiters == s.waiters
    case WriteAgain(data, noactivate) =>
      if s.shutdown || |data| == 0 then t == s.(waiters := t.waiters) && t.waiters + 1 == s.waiters
      else if s.lay.free < |data| then t == s.(wanted := true)
      else Wrote(s, t, data, noactivate) && t.waiters + 1 == s.waiters
    case Get(len, nowait, waitok) =>
      var lay := if WrapsEarly(s.lay, len, waitok) then WrappedEarly(s.lay) else s.lay;
      if s.shutdown || s.lay.size < len then t == s.(lay := lay)
      else if Grantable(s.lay, len) then t == s.(lay := lay, held := len)
      else if nowait || !s.active then t == s.(lay := lay)
      else t == s.(lay := lay, waiters := s.waiters + 1, wanted := true)
    case GetAgain(len) =>
      if s.shutdown then t == s.(waiters := t.waiters) && t.waiters + 1 == s.waiters
      else if Contiguous(s.lay) < len then t == s.(wanted := true)
      else t == s.(waiters := t.waiters, held := len) && t.waiters + 1 == s.waiters
    case Fill(at, byte) => at < s.held && t == s.(buf := s.buf[s.lay.head + at := byte])
    case PostUsed(used, noactivate) =>
      used <= s.held
      && t == s.(lay := if used == 0 then s.lay else Longer(s.lay, used), held := 0,
                 active := s.active || (used > 0 && !noactivate), posted := s.posted + s.buf[s.lay.head..s.lay.head + used])
    case Begin => s.lay.free != s.lay.size && t == s.(flight := Extents(s.lay), active := false)
    case WriteOut =>
      && s.flight.Flying? && s.flight.written < |Pending(s.lay, s.buf)|
      && t == s.(flight := s.flight.(written := s.flight.written + 1), file := s.file + [Pending(s.lay, s.buf)[s.flight.written]])
    case End => s.flight.Flying? && t == s.(lay := Flushed(s.lay, s.flight), flight := Idle, wanted := false)
    case Shut => t == s.(shutdown := true, active := s.active || s.lay.free != s.lay.size)
  }

  /** Whether the step can happen now. The caller of alq_getn keeps the lock
      until it posts; there is one flush at a time (ald_daemon, alq_flush). */
  predicate Possible(e: Event, ordered: bool, s: State) {
    match e
    case Write(data, _, _) => s.held == 0 && |data| > 0
    case WriteAgain(data, _) => s.held == 0 && 0 < |data| <= s.lay.size && s.waiters > 0
    case Get(len, _, _) => s.held == 0 && !ordered && 0 < len
    case GetAgain(len) => s.held == 0 && !ordered && 0 < len <= s.lay.size && s.waiters > 0
    case Fill(at, _) => at < s.held
    case PostUsed(used, _) => 0 < s.held && used <= s.held
    case Begin => s.held == 0 && s.flight == Idle && s.lay.free != s.lay.size
    case WriteOut => s.flight.Flying? && s.flight.written < s.flight.len0 + s.flight.len1
    case End => s.held == 0 && s.flight.Flying? && s.flight.written == s.flight.len0 + s.flight.len1
    case Shut => s.held == 0
  }

  /** Every step that could happen at its turn has, and nothing else. */
  ghost predicate Traced(events: seq<Event>, ordered: bool, trace: seq<State>) {
    && |trace| == |events| + 1
    && forall i :: 0 <= i < |events| ==> Followed(events[i], ordered, trace[i], trace[i + 1])
  }

  ghost predicate Followed(e: Event, ordered: bool, s: State, t: State) {
    s.Ok() && if Possible(e, ordered, s) then Did(e, ordered, s, t) else t == s
  }

  lemma TracedMore(events: seq<Event>, i: nat, ordered: bool, trace: seq<State>, t: State)
    requires i < |events| && Traced(events[..i], ordered, trace) && Followed(events[i], ordered, trace[i], t)
    ensures Traced(events[..i + 1], ordered, trace + [t])
  {
    hide Followed;
    forall j | 0 <= j < i + 1
      ensures Followed(events[..i + 1][j], ordered, (trace + [t])[j], (trace + [t])[j + 1])
    {
      if j < i {
        assert Followed(events[..i][j], ordered, trace[j], trace[j + 1]);
      }
    }
  }

  class Alq {
    const entbuf: array<Byte>
    const ordered: bool
    var freebytes: nat
    var writehead: nat
    var writetail: nat
    var wrapearly: nat
    var waiters: nat
    var active: bool
    var shutdown: bool
    var wanted: bool
    var flight: Flight
    /** Bytes granted to the caller of alq_getn that still holds the lock. */
    var held: nat
    /** The file behind the queue. */
    var file: seq<Byte>
    /** The messages accepted so far, one after the other. */
    ghost var posted: seq<Byte>

    function Lay(): Layout
      reads this
    {
      Layout(entbuf.Length, freebytes, writehead, writetail, wrapearly)
    }

    ghost function Now(): State
      reads this, entbuf
    {
      State(Lay(), entbuf[..], waiters, active, shutdown, wanted, flight, held, file, posted)
    }

    /** Bytes of the flush in progress that the file has already. */
    function Ahead(): nat
      reads this
    {
      if flight.Idle? then 0 else flight.written
    }

    /** The file, followed by what the queue still has to write, is what was
        posted: nothing lost, duplicated, reordered or made up. */
    ghost predicate Conserved()
      reads this, entbuf
      requires Lay().Valid()
    {
      var p := Pending(Lay(), entbuf[..]);
      Ahead() <= |p| && file + p[Ahead()..] == posted
    }

    ghost predicate Valid()
      reads this, entbuf
    {
      && Lay().Valid() && Conserved()
      && (flight.Flying? ==> InFlight(Lay(), flight))
      && held <= freebytes && writehead + held <= entbuf.Length
    }

    constructor (size: nat, order: bool)
      requires size > 0
      ensures Valid() && held == 0 && flight == Idle && file == posted == []
      ensures ordered == order && entbuf.Length == size && fresh(entbuf)
    {
      entbuf, ordered := new Byte[size], order;
      freebytes, writehead, writetail, wrapearly, waiters := size, 0, 0, 0, 0;
      active, shutdown, wanted, flight, held := false, false, false, Idle, 0;
      file, posted := [], [];
    }

    // -------------------------------------------------------------- alq_writen

    /** From the entry to the first sleep or the end. */
    method Writen(data: seq<Byte>, nowait: bool, noactivate: bool) returns (r: Outcome)
      requires Valid() && held == 0 && |data| > 0
      modifies this, entbuf
      ensures Valid() && held == 0 && file == old(file) && flight == old(flight)
      ensures posted == if r == Posted then old(posted) + data else old(posted)
      ensures r != Posted ==> Lay() == old(Lay()) && entbuf[..] == old(entbuf[..])
      ensures r == Posted <==> !old(shutdown) && |data| <= old(freebytes) && !(ordered && old(waiters) > 0)
      ensures r == Posted ==> Lay() == Longer(old(Lay()), |data|) && entbuf[..] == Stored(old(Lay()), old(entbuf[..]), data)
      ensures r == SleepOrdered <==>
                && !old(shutdown) && |data| <= entbuf.Length && ordered && old(waiters) > 0
                && (|data| <= old(freebytes) || (!nowait && old(active)))
      ensures r == SleepSpace <==>
                && !old(shutdown) && old(freebytes) < |data| <= entbuf.Length && !(ordered && old(waiters) > 0)
                && !nowait && old(active)
      ensures waiters == old(waiters) + if r.SleepOrdered? || r.SleepSpace? then 1 else 0
      ensures wanted == (old(wanted) || r == SleepSpace) && active == (old(active) || (r == Posted && !noactivate))
      ensures shutdown == old(shutdown)
    {
      var len := |data|;
      if len > entbuf.Length || shutdown || ((nowait || (!active && freebytes != entbuf.Length)) && freebytes < len) {
        return WouldBlock;
      }
      if ordered && waiters > 0 {
        waiters := waiters + 1;
        return SleepOrdered;
      }
      r := WriteOrSleep(data, noactivate);
    }

    /** The rest of alq_writen, after a sleep on either channel. */
    method ResumeWriten(data: seq<Byte>, noactivate: bool) returns (r: Outcome)
      requires Valid() && held == 0 && 0 < |data| <= entbuf.Length && waiters > 0
      modifies this, entbuf
      ensures Valid() && held == 0 && file == old(file) && flight == old(flight)
      ensures posted == if r == Posted then old(posted) + data else old(posted)
      ensures r != Posted ==> Lay() == old(Lay()) && entbuf[..] == old(entbuf[..])
      ensures r == Posted <==> !old(shutdown) && |data| <= old(freebytes)
      ensures r == Posted ==> Lay() == Longer(old(Lay()), |data|) && entbuf[..] == Stored(old(Lay()), old(entbuf[..]), data)
      ensures r == SleepSpace <==> !old(shutdown) && old(freebytes) < |data|
      ensures waiters == (if r == SleepSpace then old(waiters) else old(waiters) - 1)
      ensures wanted == (old(wanted) || r == SleepSpace) && active == (old(active) || (r == Posted && !noactivate))
      ensures shutdown == old(shutdown) && r != SleepOrdered
    {
      waiters := waiters - 1;
      r := WriteOrSleep(data, noactivate);
    }

    /** Lines 560-642: sleep for want of space, give up, or copy and post. */
    method WriteOrSleep(data: seq<Byte>, noactivate: bool) returns (r: Outcome)
      requires Valid() && held == 0 && 0 < |data| <= entbuf.Length
      modifies this, entbuf
      ensures Valid() && held == 0 && file == old(file) && flight == old(flight)
      ensures posted == if r == Posted then old(posted) + data else old(posted)
      ensures r != Posted ==> Lay() == old(Lay()) && entbuf[..] == old(entbuf[..])
      ensures r == Posted <==> !old(shutdown) && |data| <= old(freebytes)
      ensures r == Posted ==> Lay() == Longer(old(Lay()), |data|) && entbuf[..] == Stored(old(Lay()), old(entbuf[..]), data)
      ensures r == SleepSpace <==> !old(shutdown) && old(freebytes) < |data|
      ensures waiters == old(waiters) + if r == SleepSpace then 1 else 0
      ensures wanted == (old(wanted) || r == SleepSpace) && active == (old(active) || (r == Posted && !noactivate))
      ensures shutdown == old(shutdown) && r != SleepOrdered
    {
      hide Pending, InFlight, Stored, Longer;
      if freebytes < |data| && !shutdown {
        wanted := true;
        waiters := waiters + 1;
        return SleepSpace;
      }
      if shutdown {
        return WouldBlock;
      }
      Append(data);
      active := active || !noactivate;
      r := Posted;
    }

    /** Lines 609-637: copies a message behind the others. */
    method Append(data: seq<Byte>)
      requires Valid() && held == 0 && 0 < |data| <= freebytes
      modifies `freebytes, `writehead, `posted, entbuf
      ensures Valid() && posted == old(posted) + data
      ensures Lay() == Longer(old(Lay()), |data|) && entbuf[..] == Stored(old(Lay()), old(entbuf[..]), data)
    {
      hide Pending, InFlight, Stored, Layout.Valid;
      ghost var q, buf, p := Lay(), entbuf[..], Pending(Lay(), entbuf[..])[Ahead()..];
      Grown(q, buf, data, flight, Ahead());
      CopyMessage(data);
      freebytes := freebytes - |data|;
      posted := posted + data;
      assert Lay() == Longer(q, |data|);
      assert file + (p + data) == (file + p) + data;
    }

    /** Lines 609-635: the bytes, and the head after them. */
    method CopyMessage(data: seq<Byte>)
      requires Lay().Valid() && 0 < |data| <= freebytes
      modifies `writehead, entbuf
      ensures Lay() == Longer(old(Lay()), |data|).(free := freebytes)
      ensures entbuf[..] == Stored(old(Lay()), old(entbuf[..]), data)
    {
      hide Stored;
      ghost var q, buf := Lay(), entbuf[..];
      var len := |data|;
      var copy := if entbuf.Length - writehead < len then entbuf.Length - writehead else len;
      CopyIn(data[..copy], writehead);
      StoredFirst(q, buf, data, entbuf[..]);
      writehead := writehead + copy;
      if writehead >= entbuf.Length {
        writehead := 0;
      }
      if copy != len {
        CopyIn(data[copy..], 0);
        writehead := len - copy;
      }
    }

    /** bcopy into the buffer. */
    method CopyIn(data: seq<Byte>, at: nat)
      requires at + |data| <= entbuf.Length
      modifies entbuf
      ensures entbuf[..] == old(entbuf[..at]) + data + old(entbuf[at + |data|..])
    {
      var i := 0;
      while i < |data|
        invariant 0 <= i <= |data|
        invariant entbuf[..] == old(entbuf[..at]) + data[..i] + old(entbuf[at + i..])
      {
        entbuf[at + i] := data[i];
        i := i + 1;
      }
    }

    // -------------------------------------------------------------- alq_getn and alq_post

    /** alq_getn from its entry to its first sleep or its end: it grants the
        bytes if and only if the queue is open and has them in one piece, if need
        be at the start of the buffer; and it wraps early exactly when those at
        the end do not do and those at the start do, or the caller may wait. */
    method Getn(len: nat, nowait: bool, waitok: bool) returns (r: Grant)
      requires Valid() && held == 0 && !ordered && 0 < len
      modifies this
      ensures Valid() && file == old(file) && flight == old(flight) && posted == old(posted)
      ensures held == if r == Granted then len else 0
      ensures r == Granted <==> !old(shutdown) && Grantable(old(Lay()), len)
      ensures Lay() == if WrapsEarly(old(Lay()), len, waitok) then WrappedEarly(old(Lay())) else old(Lay())
      ensures r == Granted ==> len <= freebytes && writehead + len <= entbuf.Length
      ensures r == WaitSpace <==> !old(shutdown) && len <= entbuf.Length && !Grantable(old(Lay()), len) && !nowait && old(active)
      ensures waiters == old(waiters) + (if r == WaitSpace then 1 else 0) && wanted == (old(wanted) || r == WaitSpace)
      ensures shutdown == old(shutdown) && active == old(active) && entbuf[..] == old(entbuf[..])
    {
      hide Pending, InFlight;
      var contigbytes;
      if writehead <= writetail {
        contigbytes := freebytes;
      } else {
        contigbytes := entbuf.Length - writehead;
        if contigbytes < len && (writetail >= len || waitok) {
          WrapEarly();
          contigbytes := freebytes;
        }
      }
      if len > entbuf.Length || shutdown || ((nowait || (!active && freebytes != entbuf.Length)) && contigbytes < len) {
        return Null;
      }
      r := GrantOrSleep(len, contigbytes);
    }

    /** Lines 700-716. */
    method WrapEarly()
      requires Valid() && held == 0 && writetail < writehead
      modifies `wrapearly, `freebytes, `writehead
      ensures Valid() && Lay() == WrappedEarly(old(Lay())) && writehead <= writetail
    {
      hide Pending, InFlight;
      ghost var q, buf := Lay(), entbuf[..];
      wrapearly := entbuf.Length - writehead;
      freebytes := writetail;
      writehead := 0;
      WrappedEarlyPending(q, buf);
      if flight.Flying? {
        WrappedEarlyInFlight(q, flight);
      }
    }

    /** The rest of alq_getn, after a sleep for space. */
    method ResumeGetn(len: nat) returns (r: Grant)
      requires Valid() && held == 0 && !ordered && 0 < len <= entbuf.Length && waiters > 0
      modifies this
      ensures Valid() && file == old(file) && flight == old(flight) && posted == old(posted)
      ensures held == if r == Granted then len else 0
      ensures r == Granted <==> !shutdown && len <= Contiguous(Lay())
      ensures r == WaitSpace <==> !shutdown && Contiguous(Lay()) < len
      ensures waiters == (if r == WaitSpace then old(waiters) else old(waiters) - 1) && wanted == (old(wanted) || r == WaitSpace)
      ensures Lay() == old(Lay()) && shutdown == old(shutdown) && active == old(active) && entbuf[..] == old(entbuf[..])
    {
      hide Pending, InFlight;
      waiters := waiters - 1;
      var contigbytes := if writehead <= writetail then freebytes else entbuf.Length - writehead;
      r := GrantOrSleep(len, contigbytes);
    }

    /** Lines 756-815. */
    method GrantOrSleep(len: nat, contigbytes: nat) returns (r: Grant)
      requires Valid() && held == 0 && !ordered && 0 < len <= entbuf.Length
      requires contigbytes == Contiguous(Lay())
      modifies `wanted, `waiters, `held
      ensures Valid() && held == (if r == Granted then len else 0)
      ensures r == Granted <==> !shutdown && len <= contigbytes
      ensures r == WaitSpace <==> !shutdown && contigbytes < len
      ensures waiters == old(waiters) + (if r == WaitSpace then 1 else 0) && wanted == (old(wanted) || r == WaitSpace)
    {
      hide Pending, InFlight;
      if contigbytes < len && !shutdown {
        wanted := true;
        waiters := waiters + 1;
        return WaitSpace;
      }
      if shutdown {
        return Null;
      }
      held := len;
      r := Granted;
    }

    /** The caller of alq_getn writes into the bytes it was granted. */
    method FillGranted(i: nat, b: Byte)
      requires Valid() && i < held
      modifies entbuf
      ensures Valid() && entbuf[..] == old(entbuf[..])[writehead + i := b]
    {
      hide Pending, InFlight;
      ghost var buf := entbuf[..];
      entbuf[writehead + i] := b;
      FreeByte(Lay(), buf, writehead + i, b);
    }

    /** alq_post_flags: the first `used` granted bytes become a message. */
    method Post(used: nat, noactivate: bool)
      requires Valid() && 0 < held && used <= held
      modifies this
      ensures Valid() && held == 0 && file == old(file) && flight == old(flight)
      ensures posted == old(posted) + old(entbuf[writehead..writehead + used])
      ensures Lay() == if used == 0 then old(Lay()) else Longer(old(Lay()), used)
      ensures active == (old(active) || (used > 0 && !noactivate)) && entbuf[..] == old(entbuf[..])
      ensures waiters == old(waiters) && shutdown == old(shutdown) && wanted == old(wanted)
    {
      hide Pending, InFlight, Stored, Layout.Valid;
      ghost var q, buf, p := Lay(), entbuf[..], Pending(Lay(), entbuf[..])[Ahead()..];
      ghost var data := entbuf[writehead..writehead + used];
      if used > 0 {
        Grown(q, buf, data, flight, Ahead());
        StoredInPlace(q, buf, used);
        active := active || !noactivate;
        writehead := writehead + used;
        freebytes := freebytes - used;
        if writehead == entbuf.Length {
          writehead := 0;
        }
        assert Lay() == Longer(q, used);
        assert file + (p + data) == (file + p) + data;
      }
      posted := posted + data;
      held := 0;
    }

    // -------------------------------------------------------------- alq_doio

    /** Up to the unlock of line 355. */
    method FlushBegin()
      requires Valid() && held == 0 && flight == Idle && freebytes != entbuf.Length
      modifies `flight, `active
      ensures Valid() && flight == Extents(Lay()) && !active
    {
      hide Pending;
      active := false;
      flight := Extents(Lay());
    }

    /** VOP_WRITE, without the lock, moves one more byte to the file. */
    method FlushByte()
      requires Valid() && flight.Flying? && flight.written < flight.len0 + flight.len1
      modifies `flight, `file
      ensures Valid() && flight == old(flight).(written := old(flight).written + 1)
      ensures old(flight.written) < |Pending(Lay(), entbuf[..])|
      ensures file == old(file) + [Pending(Lay(), entbuf[..])[old(flight.written)]]
    {
      hide Pending, InFlight;
      ghost var q, buf := Lay(), entbuf[..];
      TakenIsFront(q, flight, buf);
      WrittenByte(q, flight);
      var k := flight.written;
      var b := if k < flight.len0 then entbuf[writetail + k] else entbuf[k - flight.len0];
      assert b == Taken(q, flight, buf)[k];
      file := file + [b];
      flight := flight.(written := k + 1);
    }

    /** From the lock of line 380 on. Returns whether to wake a sleeper. */
    method FlushEnd() returns (wake: bool)
      requires Valid() && held == 0 && flight.Flying? && flight.written == flight.len0 + flight.len1
      modifies this
      ensures Valid() && flight == Idle && held == 0 && file == old(file) && posted == old(posted)
      ensures Lay() == Flushed(old(Lay()), old(flight)) && entbuf[..] == old(entbuf[..])
      ensures wake == old(wanted) && !wanted && waiters == old(waiters) && active == old(active) && shutdown == old(shutdown)
    {
      hide Pending, InFlight, Mod, Layout.Valid, Flushed;
      ghost var q, f, buf := Lay(), flight, entbuf[..];
      FlushedPending(q, f, buf);
      assert Pending(q, buf)[Ahead()..] == Pending(Flushed(q, f), buf);
      Settle();
      wake := wanted;
      wanted := false;
    }

    /** Lines 381-401. */
    method Settle()
      requires flight.Flying? && InFlight(Lay(), flight)
      modifies `writetail, `writehead, `freebytes, `wrapearly, `flight
      ensures Lay() == Flushed(old(Lay()), old(flight)) && flight == Idle && writehead <= entbuf.Length
    {
      hide Pending, Mod;
      var totlen, wrap := flight.len0 + flight.len1, flight.wrap;
      flight := Idle;
      writetail := Mod(writetail + (totlen + wrap), entbuf.Length);
      freebytes := freebytes + (totlen + wrap);
      if wrap != 0 {
        wrapearly := 0;
      }
      if freebytes == entbuf.Length {
        writehead, writetail := 0, 0;
      }
    }

    /** alq_shutdown up to its first sleep: no new writers, and a flush is due
        if there is anything to flush. */
    method Shutdown()
      requires Valid() && held == 0
      modifies `shutdown, `active
      ensures Valid() && shutdown && active == (old(active) || freebytes != entbuf.Length)
    {
      shutdown := true;
      active := active || freebytes != entbuf.Length;
    }

    // -------------------------------------------------------------- runs

    /** Takes the step if it can happen, and returns the message it posted, if any. */
    method Step(e: Event) returns (m: seq<Byte>)
      requires Valid()
      modifies this, entbuf
      ensures Valid() && posted == old(posted) + m && old(file) <= file
      ensures Followed(e, ordered, old(Now()), Now())
    {
      hide Pending, InFlight, Layout.Valid, Stored, Longer, Flushed, Extents, Conserved;
      m := [];
      WithinSize(Lay());
      match e
      case Write(data, nowait, noactivate) =>
        if held == 0 && |data| > 0 {
          var r := Writen(data, nowait, noactivate);
          m := if r == Posted then data else [];
        }
      case WriteAgain(data, noactivate) =>
        if held == 0 && 0 < |data| <= entbuf.Length && waiters > 0 {
          var r := ResumeWriten(data, noactivate);
          m := if r == Posted then data else [];
        }
      case Get(len, nowait, waitok) =>
        if held == 0 && !ordered && 0 < len {
          var r := Getn(len, nowait, waitok);
        }
      case GetAgain(len) =>
        if held == 0 && !ordered && 0 < len <= entbuf.Length && waiters > 0 {
          var r := ResumeGetn(len);
        }
      case _ =>
        m := OtherStep(e);
    }

    method OtherStep(e: Event) returns (m: seq<Byte>)
      requires Valid() && !e.Write? && !e.WriteAgain? && !e.Get? && !e.GetAgain?
      modifies this, entbuf
      ensures Valid() && posted == old(posted) + m && old(file) <= file
      ensures Followed(e, ordered, old(Now()), Now())
    {
      hide Pending, InFlight, Layout.Valid, Stored, Longer, Flushed, Extents, Conserved;
      m := [];
      match e
      case Fill(at, byte) =>
        if at < held {
          FillGranted(at, byte);
        }
      case PostUsed(used, noactivate) =>
        if 0 < held && used <= held {
          m := entbuf[writehead..writehead + used];
          Post(used, noactivate);
        }
      case Begin =>
        if held == 0 && flight == Idle && freebytes != entbuf.Length {
          FlushBegin();
        }
      case WriteOut =>
        if flight.Flying? && flight.written < flight.len0 + flight.len1 {
          FlushByte();
        }
      case End =>
        if held == 0 && flight.Flying? && flight.written == flight.len0 + flight.len1 {
          var wake := FlushEnd();
        }
      case Shut =>
        if held == 0 {
          Shutdown();
        }
    }

    /** Any interleaving of producers, flushes and a shutdown; a step that is
        not possible when its turn comes is passed over, and every other one
        happens, as `trace` records. The file only grows, it holds a prefix of
        the messages posted, in order, and when no flush is under way the queue
        holds exactly the rest. */
    method Run(events: seq<Event>) returns (messages: seq<seq<Byte>>, ghost trace: seq<State>)
      requires Valid()
      modifies this, entbuf
      ensures Valid() && posted == old(posted) + Concat(messages)
      ensures old(file) <= file <= posted
      ensures flight == Idle ==> file + Pending(Lay(), entbuf[..]) == posted
      ensures Traced(events, ordered, trace) && trace[0] == old(Now()) && trace[|events|] == Now()
    {
      hide Pending, InFlight, Layout.Valid, Stored, Longer, Flushed, Extents, Followed;
      messages, trace := [], [Now()];
      var i := 0;
      while i < |events|
        invariant 0 <= i <= |events|
        invariant Valid() && posted == old(posted) + Concat(messages) && old(file) <= file
        invariant Traced(events[..i], ordered, trace) && trace[0] == old(Now()) && trace[i] == Now()
      {
        var m := Step(events[i]);
        messages := messages + [m];
        assert messages[..|messages| - 1] + [m] == messages;
        TracedMore(events, i, ordered, trace, Now());
        trace := trace + [Now()];
        i := i + 1;
      }
      assert events[..i] == events;
      ghost var p := Pending(Lay(), entbuf[..]);
      assert p[0..] == p;
    }

    /** A flush nobody interrupts empties the queue into the file. */
    method Drain()
      requires Valid() && held == 0 && flight == Idle && freebytes != entbuf.Length
      modifies this, entbuf
      ensures Valid() && freebytes == entbuf.Length && flight == Idle
      ensures file == posted == old(posted)
    {
      hide Pending, InFlight, Stored, Longer, Flushed;
      ghost var q := Lay();
      FlushBegin();
      while flight.written < flight.len0 + flight.len1
        invariant Valid() && held == 0 && Lay() == q && posted == old(posted)
        invariant flight.Flying? && flight.written <= flight.len0 + flight.len1
        invariant flight == Extents(q).(written := flight.written)
        decreases flight.len0 + flight.len1 - flight.written
      {
        FlushByte();
      }
      FlushedWhole(q, flight.written);
      var wake := FlushEnd();
      EmptyPending(Lay(), entbuf[..]);
    }
  }

  /** After the first copy, all that is missing is what goes to the start. */
  lemma StoredFirst(q: Layout, buf: seq<Byte>, data: seq<Byte>, buf1: seq<Byte>)
    requires q.Valid() && |buf| == q.size && 0 < |data| <= q.free
    requires var copy := if q.size - q.head < |data| then q.size - q.head else |data|;
             buf1 == buf[..q.head] + data[..copy] + buf[q.head + copy..]
    ensures |buf1| == |buf|
    ensures var copy := if q.size - q.head < |data| then q.size - q.head else |data|;
            Stored(q, buf, data) == data[copy..] + buf1[|data| - copy..]
  {
    var room := q.size - q.head;
    if |data| <= room {
      assert data[..|data|] == data;
    } else {
      assert buf1[|data| - room..] == buf[|data| - room..q.head] + data[..room];
    }
  }

  /** A message written where it will stay needs no copying. */
  lemma StoredInPlace(q: Layout, buf: seq<Byte>, n: nat)
    requires q.Valid() && |buf| == q.size && n <= q.free && q.head + n <= q.size
    ensures Stored(q, buf, buf[q.head..q.head + n]) == buf
  {
  }

  lemma WrittenByte(q: Layout, f: Flight)
    requires InFlight(q, f) && f.written < f.len0 + f.len1
    ensures InFlight(q, f.(written := f.written + 1))
    ensures q.tail + f.len0 <= q.size && f.len1 <= q.size
  {
  }

  /** A message posted keeps the bytes already written ahead in front. */
  lemma Grown(q: Layout, buf: seq<Byte>, data: seq<Byte>, f: Flight, ahead: nat)
    requires q.Valid() && |buf| == q.size && 0 < |data| <= q.free && ahead <= |Pending(q, buf)|
    requires f.Flying? ==> InFlight(q, f)
    ensures var q', buf' := Longer(q, |data|), Stored(q, buf, data);
            && q'.Valid() && Pending(q', buf')[ahead..] == Pending(q, buf)[ahead..] + data
            && ahead <= |Pending(q', buf')| && q'.head <= q'.size == q.size
            && (f.Flying? ==> InFlight(q', f))
  {
    hide Pending, InFlight, Stored, Longer;
    StoredPending(q, buf, data);
    if f.Flying? {
      LongerInFlight(q, f, |data|);
    }
  }

  /** A free byte is not part of the data. */
  lemma FreeByte(q: Layout, buf: seq<Byte>, i: nat, b: Byte)
    requires q.Valid() && |buf| == q.size && q.head <= i < q.head + q.free && i < q.size
    ensures Pending(q, buf[i := b]) == Pending(q, buf)
  {
  }
}
