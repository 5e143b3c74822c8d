/** The event queue of kern_event.c. Each method of `Kqueue` is one region the
    source runs with the kqueue lock held. */
module Kqueue {
  import opened Common

  /** The thread that has set KN_INFLUX. A scanner that is evaluating the filter
      of a knote has taken it off the list while it stays KN_QUEUED. */
  datatype Owner = Nobody | Scanner(s: nat) | ScanDropper(s: nat) | Dropper | Registrar

  /** The status and flag bits of a knote that matter here; INFLUX is having an
      owner. */
  datatype Knote = Knote(
    active: bool, queued: bool, disabled: bool, scan: bool, owner: Owner,
    oneshot: bool, drop: bool, clear: bool, dispatch: bool)
  {
    predicate Influx() { owner != Nobody }

    /** On its way to knote_drop. */
    predicate Dying() { owner == Dropper || owner.ScanDropper? }

    predicate OnList() { queued && !owner.Scanner? }
  }

  /** An element of kq_head: a knote, or the marker of a scan. */
  datatype Entry = Note(k: nat) | Mark(s: nat)

  datatype Pc = Idle | Retry | Asleep | Loop | FluxWait | Holding(k: nat) | Dropping(k: nat, event: bool) | Copying
  {
    /** The scan's marker is on the queue. */
    predicate Marked() { Loop? || FluxWait? || Holding? || Dropping? || Copying? }
  }

  /** A call of kqueue_scan: `left` is the source's `count`, `returned` the
      knotes copied out so far. */
  datatype Scan = Scan(pc: Pc, maxevents: nat, left: nat, nkev: nat, influx: bool, returned: seq<nat>)

  const KQ_NEVENTS: nat := 8

  type Notes = map<nat, Knote>

  // ---------------------------------------------------------------- the list

  function IndexOf(head: seq<Entry>, x: Entry): (i: nat)
    requires x in head
    ensures i < |head| && head[i] == x
  {
    if head[0] == x then 0 else 1 + IndexOf(head[1..], x)
  }

  /** TAILQ_REMOVE. */
  function Remove(head: seq<Entry>, x: Entry): seq<Entry>
    requires x in head
  {
    head[..IndexOf(head, x)] + head[IndexOf(head, x) + 1..]
  }

  lemma RemoveFacts(head: seq<Entry>, x: Entry)
    requires x in head && NoDup(head)
    ensures NoDup(Remove(head, x)) && x !in Remove(head, x)
    ensures forall y :: y in Remove(head, x) <==> y in head && y != x
  {
    var r, i := Remove(head, x), IndexOf(head, x);
    forall y | y in head && y != x
      ensures y in r
    {
      var j :| 0 <= j < |head| && head[j] == y;
      assert y == if j < i then r[j] else r[j - 1];
    }
  }

  /** `k` is not ahead of the marker of scan `s`. */
  predicate Behind(head: seq<Entry>, k: nat, s: nat) {
    forall i, j :: 0 <= i < j < |head| && head[j] == Mark(s) ==> head[i] != Note(k)
  }

  lemma BehindRemove(head: seq<Entry>, x: Entry, k: nat, s: nat)
    requires x in head && Behind(head, k, s)
    ensures Behind(Remove(head, x), k, s)
  {
    var r, n := Remove(head, x), IndexOf(head, x);
    forall i, j | 0 <= i < j < |r| && r[j] == Mark(s)
      ensures r[i] != Note(k)
    {
      assert r[i] == head[if i < n then i else i + 1] && r[j] == head[if j < n then j else j + 1];
    }
  }

  lemma BehindAppend(head: seq<Entry>, x: Entry, k: nat, s: nat)
    requires x != Mark(s) && Behind(head, k, s)
    ensures Behind(head + [x], k, s)
  {
  }

  lemma BehindAway(head: seq<Entry>, k: nat, s: nat)
    requires Note(k) !in head || Mark(s) !in head
    ensures Behind(head, k, s)
  {
  }

  lemma FirstIsAhead(head: seq<Entry>, k: nat, s: nat)
    requires |head| > 0 && head[0] == Note(k) && Mark(s) in head
    ensures !Behind(head, k, s)
  {
    var j :| 0 <= j < |head| && head[j] == Mark(s);
    assert head[0] == Note(k) && 0 < j;
  }

  // ---------------------------------------------------------------- the invariants

  ghost function Queued(notes: Notes): set<nat> {
    set k | k in notes && notes[k].queued
  }

  /** A knote is on kq_head iff it is KN_QUEUED and no scanner holds it. */
  ghost predicate Listed(head: seq<Entry>, notes: Notes) {
    && NoDup(head)
    && (forall k: nat :: Note(k) in head <==> k in notes && notes[k].OnList())
  }

  /** Every scan past its start has its marker on the queue, and no other. */
  ghost predicate MarksRight(head: seq<Entry>, scans: seq<Scan>) {
    forall s: nat :: Mark(s) in head <==> s < |scans| && scans[s].pc.Marked()
  }

  /** Every knote that is active, enabled and not on its way out is queued. */
  ghost predicate Live(notes: Notes) {
    forall k :: k in notes && notes[k].active && !notes[k].disabled && !notes[k].Dying() ==> notes[k].queued
  }

  /** Scanners and knotes agree on who holds what. */
  ghost predicate Owned(notes: Notes, scans: seq<Scan>) {
    && (forall k :: k in notes && notes[k].owner.Scanner? ==>
          notes[k].queued && notes[k].owner.s < |scans| && scans[notes[k].owner.s].pc == Holding(k))
    && (forall s :: 0 <= s < |scans| && scans[s].pc.Holding? ==>
          scans[s].pc.k in notes && notes[scans[s].pc.k].owner == Scanner(s))
    && (forall s :: 0 <= s < |scans| && scans[s].pc.Dropping? ==>
          scans[s].pc.k in notes && notes[scans[s].pc.k].owner == ScanDropper(s))
    && (forall k :: k in notes && notes[k].owner.ScanDropper? ==>
          notes[k].owner.s < |scans| && scans[notes[k].owner.s].pc.Dropping? && scans[notes[k].owner.s].pc.k == k)
  }

  /** Whoever sleeps in "kqread" can rely on the next enqueue to wake him. */
  ghost predicate SleepersSafe(scans: seq<Scan>, sleep: bool, fluxwait: bool, count: nat) {
    && (forall s :: 0 <= s < |scans| && scans[s].pc == Asleep ==> sleep && count == 0)
    && (forall s :: 0 <= s < |scans| && scans[s].pc == FluxWait ==> fluxwait)
  }

  /** What one scan has returned so far: no knote twice, and none of them can
      come up again before the scan meets its own marker. */
  ghost predicate ScanRight(head: seq<Entry>, sc: Scan, s: nat, next: nat) {
    && sc.left + |sc.returned| == sc.maxevents
    && (forall i, j :: 0 <= i < j < |sc.returned| ==> sc.returned[i] != sc.returned[j])
    && (forall k :: k in sc.returned ==> k < next)
    && (sc.pc == Retry || sc.pc == Asleep ==> sc.returned == [] && sc.maxevents > 0)
    && (sc.pc.Marked() ==> sc.maxevents > 0 && forall k :: k in sc.returned ==> Behind(head, k, s))
    && (sc.pc.Holding? || sc.pc.Dropping? ==> sc.pc.k !in sc.returned && sc.left > 0)
  }

  ghost predicate ScansRight(head: seq<Entry>, scans: seq<Scan>, next: nat) {
    forall s :: 0 <= s < |scans| ==> ScanRight(head, scans[s], s, next)
  }

  ghost predicate Known(notes: Notes, next: nat) {
    forall k :: k in notes ==> k < next
  }

  lemma QueuedSet(notes: Notes, k: nat, kn: Knote)
    requires k in notes || !kn.queued
    ensures |Queued(notes[k := kn])| == |Queued(notes)| + (if kn.queued then 1 else 0) - (if k in notes && notes[k].queued then 1 else 0)
  {
    var was, now := Queued(notes), Queued(notes[k := kn]);
    if kn.queued {
      assert now == was + {k};
    } else {
      assert now == was - {k};
    }
  }

  lemma QueuedGone(notes: Notes, k: nat)
    requires k in notes && !notes[k].queued
    ensures Queued(notes - {k}) == Queued(notes)
  {
  }

  /** wakeup(kq): everyone asleep on the queue goes on. */
  function Woken(scans: seq<Scan>): (r: seq<Scan>)
    ensures |r| == |scans|
    ensures forall s :: 0 <= s < |r| ==> r[s] == WokenOne(scans[s])
  {
    seq(|scans|, s requires 0 <= s < |scans| => WokenOne(scans[s]))
  }

  function WokenOne(sc: Scan): Scan {
    match sc.pc
    case Asleep => sc.(pc := Retry)
    case FluxWait => sc.(pc := Loop)
    case _ => sc
  }

  /** The scans but `s` are as they were or have been woken. */
  ghost predicate Passed(was: seq<Scan>, now: seq<Scan>, s: nat) {
    |now| == |was| && forall u :: 0 <= u < |was| && u != s ==> now[u] == was[u] || now[u] == WokenOne(was[u])
  }

  lemma WokenMarks(head: seq<Entry>, scans: seq<Scan>)
    requires MarksRight(head, scans)
    ensures MarksRight(head, Woken(scans))
  {
  }

  lemma WokenOwned(notes: Notes, scans: seq<Scan>)
    requires Owned(notes, scans)
    ensures Owned(notes, Woken(scans))
  {
  }

  lemma WokenRight(head: seq<Entry>, scans: seq<Scan>, next: nat)
    requires ScansRight(head, scans, next)
    ensures ScansRight(head, Woken(scans), next)
  {
    hide Behind;
    forall s | 0 <= s < |scans|
      ensures ScanRight(head, Woken(scans)[s], s, next)
    {
      assert ScanRight(head, scans[s], s, next);
    }
  }

  lemma AppendRight(head: seq<Entry>, scans: seq<Scan>, next: nat, x: Entry)
    requires ScansRight(head, scans, next) && MarksRight(head, scans) && x !in head
    ensures ScansRight(head + [x], scans, next) || x.Mark?
    ensures forall s :: 0 <= s < |scans| && x != Mark(s) ==> ScanRight(head + [x], scans[s], s, next)
  {
    hide Behind;
    forall s | 0 <= s < |scans| && x != Mark(s)
      ensures ScanRight(head + [x], scans[s], s, next)
    {
      assert ScanRight(head, scans[s], s, next);
      forall k | k in scans[s].returned && Behind(head, k, s)
        ensures Behind(head + [x], k, s)
      {
        BehindAppend(head, x, k, s);
      }
    }
  }

  lemma RemoveRight(head: seq<Entry>, scans: seq<Scan>, next: nat, x: Entry)
    requires ScansRight(head, scans, next) && x in head
    ensures ScansRight(Remove(head, x), scans, next)
  {
    hide Behind, Remove;
    forall s | 0 <= s < |scans|
      ensures ScanRight(Remove(head, x), scans[s], s, next)
    {
      assert ScanRight(head, scans[s], s, next);
      forall k | k in scans[s].returned && Behind(head, k, s)
        ensures Behind(Remove(head, x), k, s)
      {
        BehindRemove(head, x, k, s);
      }
    }
  }

  lemma ListedAppend(head: seq<Entry>, notes: Notes, k: nat, kn: Knote)
    requires Listed(head, notes) && k in notes && !notes[k].OnList() && kn.OnList()
    ensures Listed(head + [Note(k)], notes[k := kn])
  {
    var h, n := head + [Note(k)], notes[k := kn];
    forall j: nat
      ensures Note(j) in h <==> j in n && n[j].OnList()
    {
      assert Note(j) in h <==> Note(j) in head || j == k;
    }
  }

  lemma ListedRemove(head: seq<Entry>, notes: Notes, k: nat, kn: Knote)
    requires Listed(head, notes) && Note(k) in head && !kn.OnList()
    ensures Listed(Remove(head, Note(k)), notes[k := kn])
  {
    hide Remove;
    RemoveFacts(head, Note(k));
  }

  lemma ListedSame(head: seq<Entry>, notes: Notes, k: nat, kn: Knote)
    requires Listed(head, notes) && (kn.OnList() <==> k in notes && notes[k].OnList())
    ensures Listed(head, notes[k := kn])
  {
  }

  lemma ListedMark(head: seq<Entry>, notes: Notes, s: nat)
    requires Listed(head, notes)
    ensures Mark(s) !in head ==> Listed(head + [Mark(s)], notes)
    ensures Mark(s) in head ==> Listed(Remove(head, Mark(s)), notes)
  {
    hide Remove;
    if Mark(s) in head {
      RemoveFacts(head, Mark(s));
    } else {
      forall j: nat
        ensures Note(j) in head + [Mark(s)] <==> Note(j) in head
      {
      }
    }
  }

  lemma MarksAppend(head: seq<Entry>, scans: seq<Scan>, k: nat)
    requires MarksRight(head, scans)
    ensures MarksRight(head + [Note(k)], scans)
  {
    forall s: nat
      ensures Mark(s) in head + [Note(k)] <==> Mark(s) in head
    {
    }
  }

  lemma MarksRemove(head: seq<Entry>, scans: seq<Scan>, k: nat)
    requires MarksRight(head, scans) && NoDup(head) && Note(k) in head
    ensures MarksRight(Remove(head, Note(k)), scans)
  {
    hide Remove;
    RemoveFacts(head, Note(k));
  }

  lemma OwnedSame(notes: Notes, scans: seq<Scan>, k: nat, kn: Knote)
    requires Owned(notes, scans) && k in notes && kn.owner == notes[k].owner && (kn.owner.Scanner? ==> kn.queued)
    ensures Owned(notes[k := kn], scans)
  {
  }

  /** Other code taking or giving up a knote is nothing to the scanners. */
  lemma OwnedOther(notes: Notes, scans: seq<Scan>, k: nat, kn: Knote)
    requires Owned(notes, scans) && !kn.owner.Scanner? && !kn.owner.ScanDropper?
    requires k in notes ==> !notes[k].owner.Scanner? && !notes[k].owner.ScanDropper?
    ensures Owned(notes[k := kn], scans)
  {
  }

  lemma NotScanner(notes: Notes, scans: seq<Scan>, k: nat)
    requires Owned(notes, scans) && k in notes && !notes[k].queued
    ensures !notes[k].owner.Scanner?
  {
  }

  lemma NoteAbsent(head: seq<Entry>, notes: Notes, k: nat)
    requires Listed(head, notes) && (k in notes ==> !notes[k].OnList())
    ensures Note(k) !in head
  {
  }

  lemma SafeAny(scans: seq<Scan>, sleep: bool, fluxwait: bool, count: nat)
    requires SleepersSafe(scans, sleep, fluxwait, count)
    ensures SleepersSafe(scans, sleep, fluxwait, 0)
  {
  }

  lemma NoneAsleep(scans: seq<Scan>, sleep: bool, fluxwait: bool, count: nat)
    requires SleepersSafe(scans, sleep, fluxwait, count) && !sleep
    ensures forall s :: 0 <= s < |scans| ==> scans[s].pc != Asleep
  {
  }

  lemma KnownHas(notes: Notes, next: nat, k: nat)
    requires Known(notes, next) && k in notes
    ensures k < next
  {
  }

  lemma KnownSame(notes: Notes, next: nat, k: nat, kn: Knote)
    requires Known(notes, next) && k < next
    ensures Known(notes[k := kn], next)
  {
  }

  // One scan goes on: what the invariants need to know about its new state.

  lemma ScansOne(head: seq<Entry>, scans: seq<Scan>, next: nat, s: nat, sc: Scan)
    requires ScansRight(head, scans, next) && s < |scans| && ScanRight(head, sc, s, next)
    ensures ScansRight(head, scans[s := sc], next)
  {
    hide ScanRight;
  }

  lemma ScanOf(head: seq<Entry>, scans: seq<Scan>, next: nat, s: nat)
    requires ScansRight(head, scans, next) && s < |scans|
    ensures ScanRight(head, scans[s], s, next)
  {
  }

  lemma MarksOne(head: seq<Entry>, scans: seq<Scan>, s: nat, sc: Scan)
    requires MarksRight(head, scans) && s < |scans| && (sc.pc.Marked() <==> scans[s].pc.Marked())
    ensures MarksRight(head, scans[s := sc])
  {
  }

  lemma MarksIn(head: seq<Entry>, scans: seq<Scan>, s: nat, sc: Scan)
    requires MarksRight(head, scans) && s < |scans| && sc.pc.Marked() && !scans[s].pc.Marked()
    ensures Mark(s) !in head && MarksRight(head + [Mark(s)], scans[s := sc])
  {
    forall t: nat
      ensures Mark(t) in head + [Mark(s)] <==> Mark(t) in head || t == s
    {
    }
  }

  lemma MarksOut(head: seq<Entry>, scans: seq<Scan>, s: nat, sc: Scan)
    requires MarksRight(head, scans) && NoDup(head) && s < |scans| && scans[s].pc.Marked() && !sc.pc.Marked()
    ensures Mark(s) in head && MarksRight(Remove(head, Mark(s)), scans[s := sc])
  {
    hide Remove;
    RemoveFacts(head, Mark(s));
  }

  lemma OwnedOne(notes: Notes, scans: seq<Scan>, s: nat, sc: Scan)
    requires Owned(notes, scans) && s < |scans|
    requires !scans[s].pc.Holding? && !scans[s].pc.Dropping? && !sc.pc.Holding? && !sc.pc.Dropping?
    ensures Owned(notes, scans[s := sc])
  {
  }

  /** A scan takes a knote nobody has ... */
  lemma OwnedTake(notes: Notes, scans: seq<Scan>, s: nat, sc: Scan, k: nat, kn: Knote)
    requires Owned(notes, scans) && s < |scans| && k in notes && notes[k].owner == Nobody
    requires !scans[s].pc.Holding? && !scans[s].pc.Dropping?
    requires (sc.pc == Holding(k) && kn.owner == Scanner(s) && kn.queued)
          || (sc.pc.Dropping? && sc.pc.k == k && kn.owner == ScanDropper(s))
    ensures Owned(notes[k := kn], scans[s := sc])
  {
  }

  /** ... and gives it back. */
  lemma OwnedGive(notes: Notes, scans: seq<Scan>, s: nat, sc: Scan, kn: Knote)
    requires Owned(notes, scans) && s < |scans| && scans[s].pc.Holding? && kn.owner == Nobody
    requires !sc.pc.Holding? && !sc.pc.Dropping?
    ensures Owned(notes[scans[s].pc.k := kn], scans[s := sc])
  {
  }

  lemma OwnedGone(notes: Notes, scans: seq<Scan>, s: nat, sc: Scan)
    requires Owned(notes, scans) && s < |scans| && scans[s].pc.Dropping?
    requires !sc.pc.Holding? && !sc.pc.Dropping?
    ensures Owned(notes - {scans[s].pc.k}, scans[s := sc])
  {
  }

  lemma OwnedLess(notes: Notes, scans: seq<Scan>, k: nat)
    requires Owned(notes, scans) && k in notes && notes[k].owner == Dropper
    ensures Owned(notes - {k}, scans)
  {
  }

  lemma SafeOne(scans: seq<Scan>, sleep: bool, fluxwait: bool, count: nat, s: nat, sc: Scan, sleep': bool, fluxwait': bool)
    requires SleepersSafe(scans, sleep, fluxwait, count) && s < |scans|
    requires (sc.pc == Asleep ==> sleep' && count == 0) && (sc.pc == FluxWait ==> fluxwait')
    requires (sleep ==> sleep') && (fluxwait ==> fluxwait')
    ensures SleepersSafe(scans[s := sc], sleep', fluxwait', count)
  {
  }

  lemma SafeLess(scans: seq<Scan>, sleep: bool, fluxwait: bool, count: nat, count': nat)
    requires SleepersSafe(scans, sleep, fluxwait, count) && count' <= count
    ensures SleepersSafe(scans, sleep, fluxwait, count')
  {
  }

  /** The bits of kn_status that others may change while a thread registers. */
  datatype Status = Status(active: bool, queued: bool)

  /** One lock-held step of anyone, or one of the two unlocked accesses of line
      1284. */
  datatype Action =
    | Event(k: nat, event: bool)
    | Timer(k: nat)
    | New(oneshot: bool, drop: bool, clear: bool, dispatch: bool)
    | Update(k: nat, forceOneshot: bool)
    | LoadStatus(k: nat)
    | StoreStatus(k: nat)
    | EndUpdate(k: nat, event: bool, enable: bool)
    | Clear(k: nat)
    | Delete(k: nat)
    | Freed(k: nat)
    | BeginScan(s: nat, maxevents: nat)
    | LookForEvents(s: nat, nonblocking: bool)
    | Timeout(s: nat)
    | NextEntry(s: nat)
    | Asked(s: nat, event: bool)
    | Dropped(s: nat)
    | Copied(s: nat, fail: bool)
  {
    predicate ByScan() { BeginScan? || LookForEvents? || Timeout? || NextEntry? || Asked? || Dropped? || Copied? }
  }

  /** All there is to a queue at one moment. */
  datatype State = State(head: seq<Entry>, notes: Notes, count: nat, sleep: bool, fluxwait: bool, scans: seq<Scan>,
                         next: nat, loads: map<nat, Status>)

  /** Knote `k` has become `kn`; if that queues it, it is the last on the list,
      counted, and nobody sleeps. */
  ghost predicate Became(s: State, t: State, k: nat, kn: Knote) {
    && k in s.notes && t.notes == s.notes[k := kn] && t.next == s.next && t.loads == s.loads && Passed(s.scans, t.scans, |s.scans|)
    && (s.notes[k].queued ==> kn.queued)
    && if kn.queued == s.notes[k].queued then t.head == s.head && t.count == s.count
       else t.head == s.head + [Note(k)] && t.count == s.count + 1 && forall i :: 0 <= i < |t.scans| ==> t.scans[i].pc != Asleep
  }

  /** A knote after its registration or update: active if it was or its event has
      happened, disabled unless it is being enabled, and queued if it was, or an
      event has just happened to it, or it has just been enabled while active. */
  predicate Ended(kn: Knote, event: bool, enable: bool, kn': Knote) {
    && (kn'.active <==> kn.active || event) && (kn'.disabled <==> kn.disabled && !enable)
    && (kn'.queued <==> kn.queued || if kn.disabled then enable && (kn.active || event) else event)
    && kn'.owner == Nobody && !kn'.scan
    && kn'.oneshot == kn.oneshot && kn'.drop == kn.drop && kn'.clear == kn.clear && kn'.dispatch == kn.dispatch
  }

  function AfterEvent(kn: Knote, event: bool): (r: Knote)
    ensures r.owner == kn.owner
  {
    if event then kn.(active := true, queued := kn.queued || !kn.disabled) else kn
  }

  function AfterEnd(kn: Knote, enable: bool): (r: Knote)
    ensures r.owner == Nobody
  {
    kn.(owner := Nobody, scan := false, disabled := kn.disabled && !enable,
        queued := kn.queued || (enable && kn.disabled && kn.active))
  }

  lemma EndedSo(kn: Knote, event: bool, enable: bool)
    ensures Ended(kn, event, enable, AfterEnd(AfterEvent(kn, event), enable))
  {
  }

  /** A knote after its filter has been asked. */
  predicate Answered(kn: Knote, event: bool, kn': Knote) {
    && (kn'.queued <==> event && !kn.clear && !kn.dispatch)
    && (kn'.active <==> kn.active && event && !kn.clear && !kn.dispatch)
    && (kn'.disabled <==> kn.disabled || (event && kn.dispatch))
    && kn'.owner == Nobody && !kn'.scan
    && kn'.oneshot == kn.oneshot && kn'.drop == kn.drop && kn'.clear == kn.clear && kn'.dispatch == kn.dispatch
  }

  /** Lines 1532-1597: a scan that wants no more ends; a foreign marker or a
      knote in flux stops it; a disabled knote is passed over; its own marker
      ends it or starts it over; EV_DROP comes before EV_ONESHOT; any other knote
      is held while its filter is asked. */
  ghost predicate LookedRight(b: State, t: State, s: nat) {
    && s < |b.scans| == |t.scans| && |b.head| > 0 && t.next == b.next && t.loads == b.loads
    && var first, pc := b.head[0], t.scans[s].pc;
       if b.scans[s].left == 0 then
         pc == Idle && Mark(s) in b.head && t.head == Remove(b.head, Mark(s)) && t.notes == b.notes && t.count == b.count
       else if first.Mark? then
         && t.notes == b.notes && t.count == b.count
         && if first.s != s then pc == FluxWait && t.head == b.head
            else pc == (if b.scans[s].returned == [] then Retry else Idle) && t.head == b.head[1..]
       else
         && first.k in b.notes
         && var k, kn := first.k, b.notes[first.k];
            if kn.owner != Nobody then pc == FluxWait && t.head == b.head && t.notes == b.notes && t.count == b.count
            else
              && t.head == b.head[1..]
              && if kn.disabled then pc == Loop && t.notes == b.notes[k := kn.(queued := false)] && t.count == b.count - 1
                 else if kn.drop || kn.oneshot then
                   && pc == Dropping(k, !kn.drop) && t.count == b.count - 1
                   && t.notes == b.notes[k := kn.(queued := false, owner := ScanDropper(s))]
                 else pc == Holding(k) && t.count == b.count && t.notes == b.notes[k := kn.(owner := Scanner(s), scan := true)]
  }

  predicate Possible(a: Action, s: State) {
    match a
    case Event(k, _) => k in s.notes
    case Timer(k) => k in s.notes
    case New(_, _, _, _) => true
    case Update(k, _) => k in s.notes && !s.notes[k].Influx()
    case LoadStatus(k) => k in s.notes && s.notes[k].owner == Registrar && !s.notes[k].disabled && k !in s.loads
    case StoreStatus(k) => k in s.notes && s.notes[k].owner == Registrar && k in s.loads
    case EndUpdate(k, _, _) => k in s.notes && s.notes[k].owner == Registrar && k !in s.loads
    case Clear(k) => k in s.notes && !s.notes[k].Influx()
    case Delete(k) => k in s.notes && (!s.notes[k].Influx() || (s.notes[k].owner == Registrar && k !in s.loads))
    case Freed(k) => k in s.notes && s.notes[k].owner == Dropper
    case BeginScan(i, _) => i < |s.scans| && s.scans[i].pc == Idle
    case LookForEvents(i, _) => i < |s.scans| && s.scans[i].pc == Retry
    case Timeout(i) => i < |s.scans| && s.scans[i].pc == Asleep
    case NextEntry(i) => i < |s.scans| && s.scans[i].pc == Loop
    case Asked(i, _) => i < |s.scans| && s.scans[i].pc.Holding?
    case Dropped(i) => i < |s.scans| && s.scans[i].pc.Dropping?
    case Copied(i, _) => i < |s.scans| && s.scans[i].pc == Copying
  }

  /** What an action makes of the queue. */
  ghost predicate Did(a: Action, s: State, t: State) {
    && Possible(a, s)
    && match a
       case Event(k, event) =>
         Became(s, t, k, AfterEvent(s.notes[k], event && (s.notes[k].owner == Nobody || s.notes[k].scan)))
       case Timer(k) => Became(s, t, k, AfterEvent(s.notes[k], true))
       case New(oneshot, drop, clear, dispatch) =>
         t == s.(notes := s.notes[s.next := Knote(false, false, false, false, Registrar, oneshot, drop, clear, dispatch)], next := s.next + 1)
       case Update(k, forceOneshot) =>
         var kn := s.notes[k].(owner := Registrar, scan := true);
         Became(s, t, k, if forceOneshot then AfterEvent(kn, true).(oneshot := true) else kn)
       case LoadStatus(k) => t == s.(loads := s.loads[k := Status(s.notes[k].active, s.notes[k].queued)])
       case StoreStatus(k) =>
         t == s.(notes := s.notes[k := s.notes[k].(active := s.loads[k].active, queued := s.loads[k].queued, disabled := true)],
                 loads := s.loads - {k})
       case EndUpdate(k, event, enable) => k in t.notes && Became(s, t, k, t.notes[k]) && Ended(s.notes[k], event, enable, t.notes[k])
       case Clear(k) => t == s.(notes := s.notes[k := s.notes[k].(oneshot := true)])
       case Delete(k) => t == s.(notes := s.notes[k := s.notes[k].(owner := Dropper)])
       case Freed(k) => Gone(s, t, k) && Passed(s.scans, t.scans, |s.scans|)
       case _ => ScanDid(a, s, t)
  }

  /** Knote `k` is no more. */
  ghost predicate Gone(s: State, t: State, k: nat)
    requires k in s.notes
  {
    && t.notes == s.notes - {k} && t.next == s.next && t.loads == s.loads
    && if s.notes[k].queued then Note(k) in s.head && t.head == Remove(s.head, Note(k)) && t.count == s.count - 1
       else t.head == s.head && t.count == s.count
  }

  /** The call has put `n` more events into its buffer. */
  ghost predicate Counts(sc: Scan, sc': Scan, k: nat, n: nat) {
    && sc'.maxevents == sc.maxevents && sc'.left == sc.left - n && sc'.nkev == sc.nkev + n
    && sc'.returned == (if n == 0 then sc.returned else sc.returned + [k])
    && sc'.pc == if n > 0 && sc'.nkev == KQ_NEVENTS then Copying else Loop
  }

  ghost predicate ScanDid(a: Action, s: State, t: State)
    requires Possible(a, s) && a.ByScan()
  {
    && |t.scans| == |s.scans| && t.next == s.next && t.loads == s.loads
    && match a
       case BeginScan(i, maxevents) =>
         && t == s.(scans := t.scans)
         && t.scans == s.scans[i := Scan(if maxevents == 0 then Idle else Retry, maxevents, maxevents, 0, false, [])]
       case LookForEvents(i, nonblocking) =>
         && t == s.(head := t.head, scans := t.scans, sleep := s.sleep || t.scans[i].pc == Asleep)
         && t.head == (if s.count > 0 then s.head + [Mark(i)] else s.head)
         && t.scans == s.scans[i := s.scans[i].(pc := if s.count > 0 then Loop else if nonblocking then Idle else Asleep,
                                                influx := t.scans[i].influx)]
       case Timeout(i) => t == s.(scans := s.scans[i := s.scans[i].(pc := Idle)])
       case NextEntry(i) =>
         && Passed(s.scans, t.scans, i) && LookedRight(s, t, i)
         && t.scans[i] == s.scans[i].(pc := t.scans[i].pc, influx := t.scans[i].influx)
       case Asked(i, event) =>
         var k := s.scans[i].pc.k;
         && Passed(s.scans, t.scans, i) && Counts(s.scans[i], t.scans[i], k, if event then 1 else 0)
         && k in s.notes && k in t.notes && t.notes == s.notes[k := t.notes[k]]
         && s.notes[k].owner == Scanner(i) && (forall u :: 0 <= u < |s.scans| && u != i ==> s.scans[u].pc != Holding(k))
         && Answered(s.notes[k], event, t.notes[k]) && Note(k) !in s.head
         && t.head == (if t.notes[k].queued then s.head + [Note(k)] else s.head)
         && t.count == s.count - (if t.notes[k].queued then 0 else 1)
       case Dropped(i) =>
         var k := s.scans[i].pc.k;
         && Passed(s.scans, t.scans, i) && Counts(s.scans[i], t.scans[i], k, if s.scans[i].pc.event then 1 else 0)
         && k in s.notes && s.notes[k].owner == ScanDropper(i) && Gone(s, t, k)
       case Copied(i, fail) =>
         && Passed(s.scans, t.scans, i) && t.scans[i] == s.scans[i].(pc := if fail then Idle else Loop, nkev := 0)
         && t.notes == s.notes && t.count == s.count
         && Mark(i) in s.head && t.head == (if fail then Remove(s.head, Mark(i)) else s.head)
  }

  /** Every action that could happen at its turn has, and nothing else. */
  ghost predicate Traced(actions: seq<Action>, trace: seq<State>) {
    && |trace| == |actions| + 1
    && forall i :: 0 <= i < |actions| ==> Followed(actions[i], trace[i], trace[i + 1])
  }

  ghost predicate Followed(a: Action, s: State, t: State) {
    if Possible(a, s) then Did(a, s, t) else t == s
  }

  lemma TracedMore(actions: seq<Action>, i: nat, trace: seq<State>, t: State)
    requires i < |actions| && Traced(actions[..i], trace) && Followed(actions[i], trace[i], t)
    ensures Traced(actions[..i + 1], trace + [t])
  {
    hide Followed;
    forall j | 0 <= j < i + 1
      ensures Followed(actions[..i + 1][j], (trace + [t])[j], (trace + [t])[j + 1])
    {
      if j < i {
        assert Followed(actions[..i][j], trace[j], trace[j + 1]);
      }
    }
  }

  class Kqueue {
    var head: seq<Entry>
    var notes: Notes
    var count: nat
    /** KQ_SLEEP and KQ_FLUXWAIT of kq_state. */
    var sleep: bool
    var fluxwait: bool
    var scans: seq<Scan>
    /** Names for knotes to come. */
    var next: nat
    /** What registering threads have read of kn_status and not yet written. */
    var loads: map<nat, Status>

    function Now(): State
      reads this
    {
      State(head, notes, count, sleep, fluxwait, scans, next, loads)
    }

    ghost predicate Sound()
      reads this
    {
      && Listed(head, notes) && MarksRight(head, scans) && count == |Queued(notes)|
      && Owned(notes, scans) && SleepersSafe(scans, sleep, fluxwait, count)
      && ScansRight(head, scans, next) && Known(notes, next)
    }

    ghost predicate Valid()
      reads this
    {
      Sound() && Live(notes)
    }

    constructor (threads: nat)
      ensures Valid() && head == [] && notes == map[] && |scans| == threads && Loading(Now())
    {
      head, notes, count, sleep, fluxwait, next, loads := [], map[], 0, false, false, 0, map[];
      scans := seq(threads, i => Scan(Idle, 0, 0, 0, false, []));
    }

    /** kqueue_wakeup: whoever sleeps for events is woken. */
    method Wakeup()
      requires Listed(head, notes) && MarksRight(head, scans) && Owned(notes, scans) && ScansRight(head, scans, next)
      requires SleepersSafe(scans, sleep, fluxwait, 0)
      modifies `sleep, `scans
      ensures MarksRight(head, scans) && Owned(notes, scans) && ScansRight(head, scans, next)
      ensures forall c :: SleepersSafe(scans, sleep, fluxwait, c)
      ensures scans == if old(sleep) then Woken(old(scans)) else old(scans)
      ensures !sleep
    {
      hide MarksRight, Owned, ScansRight;
      if sleep {
        sleep := false;
        WokenMarks(head, scans);
        WokenOwned(notes, scans);
        WokenRight(head, scans, next);
        scans := Woken(scans);
      }
    }

    /** knote_enqueue. No thread stays asleep in "kqread". */
    method Enqueue(k: nat)
      requires Sound() && k in notes && !notes[k].queued
      modifies `head, `notes, `count, `sleep, `scans
      ensures Sound() && head == old(head) + [Note(k)] && count == old(count) + 1
      ensures notes == old(notes)[k := old(notes[k]).(queued := true)]
      ensures forall s :: 0 <= s < |scans| ==> scans[s].pc != Asleep
      ensures !sleep && scans == if old(sleep) then Woken(old(scans)) else old(scans)
    {
      hide MarksRight, Owned, ScansRight, Known, SleepersSafe, Queued, Remove;
      var kn := notes[k].(queued := true);
      NotScanner(notes, scans, k);
      NoteAbsent(head, notes, k);
      AppendRight(head, scans, next, Note(k));
      ListedAppend(head, notes, k, kn);
      hide Listed;
      MarksAppend(head, scans, k);
      OwnedSame(notes, scans, k, kn);
      QueuedSet(notes, k, kn);
      KnownHas(notes, next, k);
      KnownSame(notes, next, k, kn);
      SafeAny(scans, sleep, fluxwait, count);
      head, notes, count := head + [Note(k)], notes[k := kn], count + 1;
      Wakeup();
      NoneAsleep(scans, sleep, fluxwait, count);
    }

    /** A change to a knote that leaves KN_QUEUED and its owner alone. */
    method SetFlags(k: nat, kn: Knote)
      requires Sound() && k in notes && kn.queued == notes[k].queued && kn.owner == notes[k].owner
      modifies `notes
      ensures Sound() && notes == old(notes)[k := kn]
    {
      hide MarksRight, ScansRight, SleepersSafe, Queued;
      ListedSame(head, notes, k, kn);
      OwnedSame(notes, scans, k, kn);
      QueuedSet(notes, k, kn);
      KnownHas(notes, next, k);
      KnownSame(notes, next, k, kn);
      notes := notes[k := kn];
    }

    /** KNOTE_ACTIVATE. */
    method Activate(k: nat)
      requires Valid() && k in notes
      modifies `head, `notes, `count, `sleep, `scans
      ensures Valid() && k in notes && notes[k].active
      ensures notes[k] == old(notes[k]).(active := true, queued := old(notes[k].queued || !notes[k].disabled))
      ensures notes == old(notes)[k := notes[k]]
      ensures !old(notes[k].queued || notes[k].disabled) ==> forall s :: 0 <= s < |scans| ==> scans[s].pc != Asleep
      ensures Became(old(Now()), Now(), k, old(notes[k]).(active := true, queued := old(notes[k].queued || !notes[k].disabled)))
    {
      hide MarksRight, ScansRight, SleepersSafe, Queued, Listed, Owned, Known;
      SetFlags(k, notes[k].(active := true));
      if !notes[k].queued && !notes[k].disabled {
        Enqueue(k);
      }
    }

    // ---------------------------------------------------------------- knote and kqueue_register

    /** One turn of the loop of knote (without KNF_NOKQLOCK). */
    method KnoteEvent(k: nat, event: bool)
      requires Valid() && k in notes
      modifies `head, `notes, `count, `sleep, `scans
      ensures Valid() && k in notes && notes == old(notes)[k := notes[k]]
      ensures var kn := old(notes)[k];
              notes[k] == if event && (!kn.Influx() || kn.scan)
                          then kn.(active := true, queued := kn.queued || !kn.disabled) else kn
      ensures Became(old(Now()), Now(), k, notes[k])
    {
      hide Sound, Live;
      if notes[k].Influx() && !notes[k].scan {
        return;
      }
      if event {
        Activate(k);
      }
    }

    /** A new knote, in the hands of the registering thread (line 1221). */
    method RegisterNew(oneshot: bool, drop: bool, clear: bool, dispatch: bool) returns (k: nat)
      requires Valid()
      modifies `notes, `next
      ensures Valid() && k !in old(notes)
      ensures notes == old(notes)[k := Knote(false, false, false, false, Registrar, oneshot, drop, clear, dispatch)]
      ensures k == old(next) && next == k + 1
    {
      hide MarksRight, SleepersSafe, Queued;
      k := next;
      NotKnown(notes, next);
      var kn := Knote(false, false, false, false, Registrar, oneshot, drop, clear, dispatch);
      ListedSame(head, notes, k, kn);
      OwnedOther(notes, scans, k, kn);
      QueuedSet(notes, k, kn);
      NextRight(head, scans, next);
      notes, next := notes[k := kn], next + 1;
    }

    /** A knote nobody has, taken by the registering thread (lines 1253-1264). */
    method RegisterOld(k: nat, forceOneshot: bool)
      requires Valid() && k in notes && !notes[k].Influx()
      modifies `head, `notes, `count, `sleep, `scans
      ensures Valid() && k in notes && notes == old(notes)[k := notes[k]]
      ensures var kn := old(notes)[k].(owner := Registrar, scan := true);
              notes[k] == if forceOneshot then kn.(oneshot := true, active := true, queued := kn.queued || !kn.disabled) else kn
      ensures Became(old(Now()), Now(), k, notes[k])
    {
      hide Sound, Live;
      if forceOneshot {
        SetOneshot(k);
        Activate(k);
      }
      ChangeOwner(k, notes[k].(owner := Registrar, scan := true));
    }

    /** EV_ONESHOT set on a knote, also by knlist_clear. */
    method SetOneshot(k: nat)
      requires Valid() && k in notes
      modifies `notes
      ensures Valid() && notes == old(notes)[k := old(notes[k]).(oneshot := true)]
    {
      hide Listed, MarksRight, Queued, Owned, SleepersSafe, ScansRight, Known;
      SetFlags(k, notes[k].(oneshot := true));
    }

    /** A change of a knote's owner that is not the business of any scan. */
    method ChangeOwner(k: nat, kn: Knote)
      requires Valid() && k in notes && !notes[k].owner.Scanner? && !notes[k].owner.ScanDropper?
      requires kn == notes[k].(owner := kn.owner, scan := kn.scan) && !kn.owner.Scanner? && !kn.owner.ScanDropper?
      requires notes[k].Dying() ==> kn.Dying()
      modifies `notes
      ensures Valid() && notes == old(notes)[k := kn]
      ensures Became(old(Now()), Now(), k, kn)
    {
      hide MarksRight, ScansRight, SleepersSafe, Queued;
      ListedSame(head, notes, k, kn);
      OwnedOther(notes, scans, k, kn);
      QueuedSet(notes, k, kn);
      KnownHas(notes, next, k);
      KnownSame(notes, next, k, kn);
      notes := notes[k := kn];
    }

    /** EV_DISABLE is set without the kqueue lock (line 1284): the status is read ... */
    method LoadStatus(k: nat)
      requires Valid() && k in notes && notes[k].owner == Registrar
      modifies `loads
      ensures Valid() && loads == old(loads)[k := Status(notes[k].active, notes[k].queued)]
    {
      hide Listed, MarksRight, Queued, Owned, SleepersSafe, ScansRight, Known, Live;
      loads := loads[k := Status(notes[k].active, notes[k].queued)];
    }

    /** ... and written back with KN_DISABLED, whatever has happened to it in
        between. The queue stays in order if and only if nobody has queued the
        knote in between. */
    method StoreStatus(k: nat)
      requires Valid() && k in notes && notes[k].owner == Registrar && k in loads
      modifies `notes, `loads
      ensures notes == old(notes)[k := old(notes[k]).(active := old(loads[k].active), queued := old(loads[k].queued), disabled := true)]
      ensures loads == old(loads) - {k}
      ensures Valid() <==> old(notes[k].queued) == old(loads[k].queued)
    {
      hide MarksRight, Owned, SleepersSafe, ScansRight, Known;
      var kn := notes[k].(active := loads[k].active, queued := loads[k].queued, disabled := true);
      if kn.queued == notes[k].queued {
        StatusKept(k, kn);
        notes := notes[k := kn];
      } else {
        notes := notes[k := kn];
        assert Note(k) in head <==> !kn.queued;
      }
      loads := loads - {k};
    }

    lemma StatusKept(k: nat, kn: Knote)
      requires Valid() && k in notes && kn.queued == notes[k].queued && kn.owner == notes[k].owner && kn.disabled
      ensures Listed(head, notes[k := kn]) && Owned(notes[k := kn], scans) && Known(notes[k := kn], next)
      ensures |Queued(notes[k := kn])| == |Queued(notes)| && Live(notes[k := kn])
    {
      hide MarksRight, SleepersSafe, ScansRight, Queued;
      ListedSame(head, notes, k, kn);
      OwnedSame(notes, scans, k, kn);
      QueuedSet(notes, k, kn);
      KnownHas(notes, next, k);
      KnownSame(notes, next, k, kn);
    }

    /** Lines 1291-1303: the knote is activated if its event has happened, given
        up, and queued if it was enabled while active. */
    method RegisterEnd(k: nat, event: bool, enable: bool)
      requires Valid() && k in notes && notes[k].owner == Registrar
      modifies `head, `notes, `count, `sleep, `fluxwait, `scans
      ensures Valid()
      ensures k in notes && Became(old(Now()), Now(), k, notes[k]) && Ended(old(notes)[k], event, enable, notes[k])
      ensures k in notes && (notes[k].active && !notes[k].disabled ==> notes[k].queued)
    {
      hide Sound, Live, Became, Ended, AfterEnd, AfterEvent;
      ghost var s0, kn := Now(), notes[k];
      ActivateIf(k, event);
      ghost var s1 := Now();
      BecameIs(s0, s1, k, AfterEvent(kn, event));
      EndFlux(k, enable);
      BecameThen(s0, s1, Now(), k, AfterEvent(kn, event), AfterEnd(AfterEvent(kn, event), enable));
      BecameIs(s1, Now(), k, AfterEnd(AfterEvent(kn, event), enable));
      EndedSo(kn, event, enable);
      LiveOf(k);
    }

    method ActivateIf(k: nat, event: bool)
      requires Valid() && k in notes
      modifies `head, `notes, `count, `sleep, `scans
      ensures Valid()
      ensures Became(old(Now()), Now(), k, AfterEvent(old(notes)[k], event))
    {
      hide Sound, Live, Became;
      BecameSelf(Now(), k);
      if event {
        Activate(k);
      }
    }

    /** Lines 1293-1304. */
    method EndFlux(k: nat, enable: bool)
      requires Valid() && k in notes && notes[k].owner == Registrar
      modifies `head, `notes, `count, `sleep, `fluxwait, `scans
      ensures Valid()
      ensures Became(old(Now()), Now(), k, AfterEnd(old(notes)[k], enable))
    {
      hide Sound, Live, Became, Passed;
      ghost var s0, kn := Now(), notes[k];
      ghost var kn1 := kn.(owner := Nobody, scan := false);
      ChangeOwner(k, notes[k].(owner := Nobody, scan := false));
      ghost var s2 := Now();
      BecameIs(s0, s2, k, kn1);
      ghost var kn2 := kn1;
      if enable && notes[k].disabled {
        Enable(k);
        kn2 := kn1.(disabled := false, queued := kn.queued || kn.active);
        BecameThen(s0, s2, Now(), k, kn1, kn2);
      }
      ghost var s3 := Now();
      FluxWakeup();
      BecameWoken(s0, s3, Now(), k, kn2);
    }

    lemma LiveOf(k: nat)
      requires Valid() && k in notes && !notes[k].Dying()
      ensures notes[k].active && !notes[k].disabled ==> notes[k].queued
    {
    }

    /** Lines 1297-1302. */
    method Enable(k: nat)
      requires Valid() && k in notes && notes[k].disabled
      modifies `head, `notes, `count, `sleep, `scans
      ensures Valid() && k in notes && notes == old(notes)[k := notes[k]]
      ensures notes[k] == old(notes[k]).(disabled := false, queued := old(notes[k].queued || notes[k].active))
      ensures Became(old(Now()), Now(), k, old(notes[k]).(disabled := false, queued := old(notes[k].queued || notes[k].active)))
    {
      hide Listed, MarksRight, Queued, Owned, SleepersSafe, ScansRight, Known;
      SetFlags(k, notes[k].(disabled := false));
      if notes[k].active && !notes[k].queued {
        Enqueue(k);
      }
    }

    /** KQ_FLUX_WAKEUP. */
    method FluxWakeup()
      requires Valid()
      modifies `fluxwait, `scans
      ensures Valid() && scans == if old(fluxwait) then Woken(old(scans)) else old(scans)
    {
      hide Listed, MarksRight, Queued, Owned, ScansRight, Known;
      if fluxwait {
        fluxwait := false;
        WokenMarks(head, scans);
        WokenOwned(notes, scans);
        WokenRight(head, scans, next);
        scans := Woken(scans);
      }
    }

    /** EV_DELETE, a failed attach, knote_fdclose or knlist_delete: the knote is
        taken for good, before the lock is given up and knote_drop called. */
    method Doom(k: nat)
      requires Valid() && k in notes && (!notes[k].Influx() || notes[k].owner == Registrar)
      modifies `notes
      ensures Valid() && notes == old(notes)[k := old(notes[k]).(owner := Dropper)]
    {
      hide Sound, Live;
      ChangeOwner(k, notes[k].(owner := Dropper));
    }

    /** knote_drop: off the queue, if something queued it meanwhile, and gone. */
    method Drop(k: nat)
      requires Valid() && k in notes && notes[k].owner == Dropper
      modifies `head, `notes, `count, `fluxwait, `scans
      ensures Valid() && notes == old(notes) - {k}
      ensures Gone(old(Now()), Now(), k) && Passed(old(scans), scans, |old(scans)|)
    {
      hide Sound, Live;
      if notes[k].queued {
        DroppedIsListed(k);
        Dequeue(k);
      }
      Forget(k);
      FluxWakeup();
    }

    lemma DroppedIsListed(k: nat)
      requires Valid() && k in notes && notes[k].owner == Dropper && notes[k].queued
      ensures notes[k].OnList()
    {
    }

    method Forget(k: nat)
      requires Valid() && k in notes && notes[k].owner == Dropper && !notes[k].queued
      modifies `notes
      ensures Valid() && notes == old(notes) - {k}
    {
      hide MarksRight, Queued, SleepersSafe, ScansRight;
      NoteAbsent(head, notes, k);
      QueuedGone(notes, k);
      OwnedLess(notes, scans, k);
      notes := notes - {k};
    }

    /** knote_dequeue. */
    method Dequeue(k: nat)
      requires Valid() && k in notes && notes[k].OnList() && notes[k].Dying()
      modifies `head, `notes, `count
      ensures Valid() && notes == old(notes)[k := old(notes[k]).(queued := false)]
      ensures head == Remove(old(head), Note(k)) && count == old(count) - 1
    {
      hide MarksRight, Queued, SleepersSafe, ScansRight, Remove, Known, Owned;
      var kn := notes[k].(queued := false);
      assert Note(k) in head;
      QueuedSet(notes, k, kn);
      QueuedSome(notes, k);
      MarksRemove(head, scans, k);
      RemoveRight(head, scans, next, Note(k));
      ListedRemove(head, notes, k, kn);
      hide Listed;
      OwnedSame(notes, scans, k, kn);
      KnownHas(notes, next, k);
      KnownSame(notes, next, k, kn);
      SafeLess(scans, sleep, fluxwait, count, count - 1);
      head, notes, count := Remove(head, Note(k)), notes[k := kn], count - 1;
    }

    // ---------------------------------------------------------------- kqueue_scan

    /** A scan goes on without touching knotes or the queue. */
    method MoveScan(s: nat, sc: Scan)
      requires Valid() && s < |scans| && ScanRight(head, sc, s, next)
      requires !scans[s].pc.Holding? && !scans[s].pc.Dropping? && !sc.pc.Holding? && !sc.pc.Dropping?
      requires (sc.pc.Marked() <==> scans[s].pc.Marked()) && (sc.pc == Asleep ==> count == 0)
      modifies `scans, `sleep, `fluxwait
      ensures Valid() && scans == old(scans)[s := sc]
      ensures sleep == (old(sleep) || sc.pc == Asleep) && fluxwait == (old(fluxwait) || sc.pc == FluxWait)
    {
      hide Listed, MarksRight, Queued, Owned, SleepersSafe, ScansRight, Known, ScanRight;
      ScansOne(head, scans, next, s, sc);
      MarksOne(head, scans, s, sc);
      OwnedOne(notes, scans, s, sc);
      var sleep', fluxwait' := sleep || sc.pc == Asleep, fluxwait || sc.pc == FluxWait;
      SafeOne(scans, sleep, fluxwait, count, s, sc, sleep', fluxwait');
      scans, sleep, fluxwait := scans[s := sc], sleep', fluxwait';
    }

    /** The call, up to the first lock. */
    method ScanCall(s: nat, maxevents: nat)
      requires Valid() && s < |scans| && scans[s].pc == Idle
      modifies `scans, `sleep, `fluxwait
      ensures Valid() && scans == old(scans)[s := Scan(if maxevents == 0 then Idle else Retry, maxevents, maxevents, 0, false, [])]
      ensures sleep == old(sleep) && fluxwait == old(fluxwait)
    {
      hide Sound, Live;
      MoveScan(s, Scan(if maxevents == 0 then Idle else Retry, maxevents, maxevents, 0, false, []));
    }

    /** From `retry` on: sleeps for an event, gives up, or puts the marker at
        the tail. */
    method ScanRetry(s: nat, nonblocking: bool)
      requires Valid() && s < |scans| && scans[s].pc == Retry
      modifies `head, `scans, `sleep, `fluxwait
      ensures Valid() && |scans| == |old(scans)| && sleep == (old(sleep) || scans[s].pc == Asleep) && fluxwait == old(fluxwait)
      ensures var was := old(scans[s]); scans == old(scans)[s := was.(
                pc := if count > 0 then Loop else if nonblocking then Idle else Asleep,
                influx := if count > 0 then false else was.influx)]
      ensures head == if count > 0 then old(head) + [Mark(s)] else old(head)
    {
      hide Listed, MarksRight, Queued, Owned, SleepersSafe, ScansRight, Known;
      ScanOf(head, scans, next, s);
      if count == 0 {
        MoveScan(s, scans[s].(pc := if nonblocking then Idle else Asleep));
      } else {
        var sc := scans[s].(pc := Loop, influx := false);
        MarksIn(head, scans, s, sc);
        AppendRight(head, scans, next, Mark(s));
        AppendedScan(head, scans, next, s, sc);
        ListedMark(head, notes, s);
        OwnedOne(notes, scans, s, sc);
        SafeOne(scans, sleep, fluxwait, count, s, sc, sleep, fluxwait);
        head, scans := head + [Mark(s)], scans[s := sc];
      }
    }

    /** A timeout or a signal ends the sleep in "kqread". */
    method ScanGiveUp(s: nat)
      requires Valid() && s < |scans| && scans[s].pc == Asleep
      modifies `scans, `sleep, `fluxwait
      ensures Valid() && scans == old(scans)[s := old(scans[s]).(pc := Idle)]
      ensures sleep == old(sleep) && fluxwait == old(fluxwait)
    {
      hide Listed, MarksRight, Queued, Owned, SleepersSafe, ScansRight, Known;
      ScanOf(head, scans, next, s);
      MoveScan(s, scans[s].(pc := Idle));
    }

    /** The marker comes off the queue, and the scan starts over or ends. */
    method TakeMarker(s: nat, pc: Pc)
      requires Valid() && s < |scans| && (scans[s].pc == Loop || scans[s].pc == Copying)
      requires pc == Idle || (pc == Retry && scans[s].returned == [])
      modifies `head, `scans, `fluxwait
      ensures Valid() && Mark(s) !in head && |scans| == old(|scans|)
      ensures scans[s] == old(scans[s]).(pc := pc) && Passed(old(scans), scans, s)
      ensures Mark(s) in old(head) && head == Remove(old(head), Mark(s))
    {
      hide Listed, MarksRight, Queued, Owned, SleepersSafe, ScansRight, Known, Remove;
      var sc := scans[s].(pc := pc);
      ListedNoDup(head, notes);
      MarksOut(head, scans, s, sc);
      ScanOf(head, scans, next, s);
      ListedMark(head, notes, s);
      RemoveRight(head, scans, next, Mark(s));
      RemoveFacts(head, Mark(s));
      ScansOne(Remove(head, Mark(s)), scans, next, s, sc);
      OwnedOne(notes, scans, s, sc);
      SafeOne(scans, sleep, fluxwait, count, s, sc, sleep, fluxwait);
      head, scans := Remove(head, Mark(s)), scans[s := sc];
      FluxWakeup();
    }

    /** The knote at the head leaves the queue with new flags (TAILQ_REMOVE and
        what follows): a disabled one just stops being queued, one with EV_DROP
        or EV_ONESHOT is on its way to knote_drop, any other is held, still
        KN_QUEUED, while its filter is asked. */
    method TakeNote(s: nat, kn: Knote, pc: Pc)
      requires Valid() && s < |scans| && scans[s].pc == Loop && scans[s].left > 0
      requires |head| > 0 && head[0].Note? && head[0].k in notes && !notes[head[0].k].Influx()
      requires kn == notes[head[0].k].(queued := kn.queued, owner := kn.owner, scan := kn.scan)
      requires (pc == Loop && !kn.queued && kn.owner == Nobody && kn.disabled)
            || (pc == Holding(head[0].k) && kn.queued && kn.owner == Scanner(s))
            || (pc.Dropping? && pc.k == head[0].k && !kn.queued && kn.owner == ScanDropper(s))
      modifies `head, `notes, `count, `scans
      ensures Valid() && head == old(head)[1..] && notes == old(notes)[old(head)[0].k := kn]
      ensures scans == old(scans)[s := old(scans)[s].(pc := pc)] && Passed(old(scans), scans, s)
      ensures count == old(count) - (if kn.queued then 0 else 1)
    {
      hide Listed, MarksRight, Queued, Owned, SleepersSafe, ScansRight, Known;
      var k, sc := head[0].k, scans[s].(pc := pc);
      TakenQueue(head, notes, scans, next, s, sc, k, kn);
      TakenOwned(notes, scans, s, sc, k, kn);
      QueuedSet(notes, k, kn);
      QueuedSome(notes, k);
      KnownHas(notes, next, k);
      KnownSame(notes, next, k, kn);
      var less := if kn.queued then count else count - 1;
      SafeLess(scans, sleep, fluxwait, count, less);
      SafeOne(scans, sleep, fluxwait, less, s, sc, sleep, fluxwait);
      head, notes, count, scans := head[1..], notes[k := kn], less, scans[s := sc];
    }

    /** A held knote is given up: back at the tail, or no longer queued. */
    method GiveBack(s: nat, kn: Knote, sc: Scan)
      requires Valid() && s < |scans| && scans[s].pc.Holding?
      requires kn.owner == Nobody && (kn.queued || !kn.active)
      requires sc == scans[s].(pc := Loop, influx := true) || sc == Delivered(scans[s].(influx := true), scans[s].pc.k)
      modifies `head, `notes, `count, `scans
      ensures Valid() && scans == old(scans)[s := sc]
      ensures notes == old(notes)[old(scans)[s].pc.k := kn]
      ensures head == if kn.queued then old(head) + [Note(old(scans)[s].pc.k)] else old(head)
      ensures count == old(count) - (if kn.queued then 0 else 1)
    {
      hide Listed, MarksRight, Queued, Owned, SleepersSafe, ScansRight, Known;
      var k := scans[s].pc.k;
      HeldNote(notes, scans, s);
      ScanOf(head, scans, next, s);
      var head' := if kn.queued then head + [Note(k)] else head;
      GivenQueue(head, notes, scans, next, s, sc, kn);
      OwnedGive(notes, scans, s, sc, kn);
      QueuedSet(notes, k, kn);
      QueuedSome(notes, k);
      KnownHas(notes, next, k);
      KnownSame(notes, next, k, kn);
      var less := if kn.queued then count else count - 1;
      SafeLess(scans, sleep, fluxwait, count, less);
      SafeOne(scans, sleep, fluxwait, less, s, sc, sleep, fluxwait);
      head, notes, count, scans := head', notes[k := kn], less, scans[s := sc];
    }

    /** The filter has been asked (lines 1598-1635). The knote goes back to the
        tail of the queue, still queued and counted, exactly if there was an event
        and neither EV_CLEAR nor EV_DISPATCH is set; else it is no longer queued,
        counted or active, until something activates it again. */
    method ScanEvent(s: nat, event: bool)
      requires Valid() && s < |scans| && scans[s].pc.Holding?
      modifies `head, `notes, `count, `scans, `sleep, `fluxwait
      ensures Valid() && Passed(old(scans), scans, s)
      ensures var k := old(scans[s].pc.k);
              k in old(notes) && k in notes && notes == old(notes)[k := notes[k]]
              && old(notes)[k].owner == Scanner(s) && Answered(old(notes)[k], event, notes[k])
              && (forall u :: 0 <= u < |scans| && u != s ==> old(scans)[u].pc != Holding(k))
              && head == (if notes[k].queued then old(head) + [Note(k)] else old(head)) && Note(k) !in old(head)
              && count == old(count) - (if notes[k].queued then 0 else 1)
      ensures |scans| == |old(scans)| && Counts(old(scans[s]), scans[s], old(scans[s].pc.k), if event then 1 else 0)
    {
      hide Sound, Live, Passed;
      HeldKnown(s);
      HeldIsOff(s);
      PassedSelf(scans, s);
      var k := scans[s].pc.k;
      var kn := notes[k];
      var sc := scans[s].(influx := true);
      ghost var was := scans;
      if !event {
        GiveBack(s, kn.(queued := false, active := false, owner := Nobody, scan := false), sc.(pc := Loop));
        PassedOne(was, s, scans[s]);
      } else {
        if kn.clear || kn.dispatch {
          GiveBack(s, kn.(queued := false, active := false, owner := Nobody, scan := false,
                          disabled := kn.disabled || kn.dispatch), Delivered(sc, k));
        } else {
          GiveBack(s, kn.(owner := Nobody, scan := false), Delivered(sc, k));
        }
        PassedOne(was, s, scans[s]);
        ghost var mid := scans;
        Copyout(s);
        PassedThen(was, mid, scans, s);
      }
    }

    lemma HeldIsOff(s: nat)
      requires Valid() && s < |scans| && scans[s].pc.Holding?
      ensures Note(scans[s].pc.k) !in head && scans[s].pc.k in notes && notes[scans[s].pc.k].owner == Scanner(s)
      ensures forall u :: 0 <= u < |scans| && u != s ==> scans[u].pc != scans[s].pc
    {
      hide MarksRight, Queued, SleepersSafe, ScansRight, Known;
    }

    lemma HeldKnown(s: nat)
      requires Valid() && s < |scans|
      ensures scans[s].pc.Holding? ==> scans[s].pc.k in notes && notes[scans[s].pc.k].queued
      ensures scans[s].pc.Dropping? ==> scans[s].pc.k in notes && notes[scans[s].pc.k].owner == ScanDropper(s)
      ensures scans[s].pc.Holding? || scans[s].pc.Dropping? ==> scans[s].left > 0
    {
      hide Listed, MarksRight, Queued, SleepersSafe, Known;
      ScanOf(head, scans, next, s);
    }

    /** A full buffer is to go to the user: the lock is given up (line 1645). */
    method Copyout(s: nat)
      requires Valid() && s < |scans| && scans[s].pc == Loop
      modifies `scans, `sleep, `fluxwait
      ensures Valid() && Passed(old(scans), scans, s)
      ensures scans[s] == old(scans[s]).(pc := if old(scans[s].nkev) == KQ_NEVENTS then Copying else Loop, influx := scans[s].influx)
    {
      hide Listed, MarksRight, Queued, Owned, SleepersSafe, ScansRight, Known;
      if scans[s].nkev == KQ_NEVENTS {
        ScanOf(head, scans, next, s);
        UpdateLoop(s, scans[s].(influx := false));
        FluxWakeup();
        ScanOf(head, scans, next, s);
        MoveScan(s, scans[s].(pc := Copying));
      }
    }

    /** The lock is taken again after the copy; a failed one ends the scan. */
    method CopiedOut(s: nat, fail: bool)
      requires Valid() && s < |scans| && scans[s].pc == Copying
      modifies `head, `scans, `sleep, `fluxwait
      ensures Valid() && |scans| == |old(scans)| && Passed(old(scans), scans, s)
      ensures scans[s] == old(scans[s]).(pc := if fail then Idle else Loop, nkev := 0)
      ensures Mark(s) in old(head) && head == (if fail then Remove(old(head), Mark(s)) else old(head)) && (fail ==> Mark(s) !in head)
    {
      hide Listed, MarksRight, Queued, Owned, SleepersSafe, ScansRight, Known;
      ScanOf(head, scans, next, s);
      MarkOf(head, scans, s);
      MoveScan(s, scans[s].(pc := Loop, nkev := 0));
      if fail {
        TakeMarker(s, Idle);
      }
    }

    /** Only the scan's own counters change. */
    method UpdateLoop(s: nat, sc: Scan)
      requires Valid() && s < |scans| && scans[s].pc == Loop
      requires sc == scans[s].(influx := sc.influx, nkev := sc.nkev)
      modifies `scans
      ensures Valid() && scans == old(scans)[s := sc]
    {
      hide Listed, MarksRight, Queued, Owned, SleepersSafe, ScansRight, Known;
      ScanOf(head, scans, next, s);
      ScansOne(head, scans, next, s, sc);
      MarksOne(head, scans, s, sc);
      OwnedOne(notes, scans, s, sc);
      SafeOne(scans, sleep, fluxwait, count, s, sc, sleep, fluxwait);
      scans := scans[s := sc];
    }

    /** knote_drop by the scan, and the event of an EV_ONESHOT knote. */
    method ScanDrop(s: nat)
      requires Valid() && s < |scans| && scans[s].pc.Dropping?
      modifies `head, `notes, `count, `scans, `sleep, `fluxwait
      ensures Valid() && Passed(old(scans), scans, s) && notes == old(notes) - {old(scans[s].pc.k)}
      ensures |scans| == |old(scans)| && old(scans[s].pc.k) in old(notes) && Gone(old(Now()), Now(), old(scans[s].pc.k))
      ensures old(notes)[old(scans[s].pc.k)].owner == ScanDropper(s)
      ensures Counts(old(scans[s]), scans[s], old(scans[s].pc.k), if old(scans[s].pc.event) then 1 else 0)
    {
      hide Sound, Live, Passed, Remove;
      HeldKnown(s);
      ghost var was := scans;
      var k, event := scans[s].pc.k, scans[s].pc.event;
      DropIsListed(s);
      if notes[k].queued {
        Dequeue(k);
      }
      Free(s);
      PassedOne(was, s, scans[s]);
      ghost var freed := scans;
      FluxWakeup();
      PassedWoken(freed, s);
      PassedSelf(freed, s);
      PassedThen(was, freed, scans, s);
      if event {
        ghost var mid := scans;
        Copyout(s);
        PassedThen(was, mid, scans, s);
      }
    }

    lemma DropIsListed(s: nat)
      requires Valid() && s < |scans| && scans[s].pc.Dropping? && scans[s].pc.k in notes && notes[scans[s].pc.k].owner == ScanDropper(s)
      ensures notes[scans[s].pc.k].queued ==> Note(scans[s].pc.k) in head
    {
      hide MarksRight, Queued, SleepersSafe, ScansRight, Known;
    }

    /** The end of knote_drop, called from the scan. */
    method Free(s: nat)
      requires Valid() && s < |scans| && scans[s].pc.Dropping?
      requires scans[s].pc.k in notes && !notes[scans[s].pc.k].queued
      modifies `notes, `scans
      ensures Valid() && notes == old(notes) - {old(scans)[s].pc.k}
      ensures var was := old(scans)[s];
              scans == old(scans)[s := if was.pc.event then Delivered(was, was.pc.k) else was.(pc := Loop)]
    {
      hide MarksRight, Queued, Owned, SleepersSafe, ScansRight;
      ScanOf(head, scans, next, s);
      var k := scans[s].pc.k;
      var sc := if scans[s].pc.event then Delivered(scans[s], k) else scans[s].(pc := Loop);
      NoteAbsent(head, notes, k);
      ListedNoDup(head, notes);
      MarkOf(head, scans, s);
      KnownHas(notes, next, k);
      DeliveredRight(head, scans[s], sc, s, next);
      MarksOne(head, scans, s, sc);
      ScansOne(head, scans, next, s, sc);
      OwnedGone(notes, scans, s, sc);
      QueuedGone(notes, k);
      SafeOne(scans, sleep, fluxwait, count, s, sc, sleep, fluxwait);
      notes, scans := notes - {k}, scans[s := sc];
    }

    /** The loop of kqueue_scan, from one look at the queue to the next. */
    method ScanNext(s: nat)
      requires Valid() && s < |scans| && scans[s].pc == Loop
      modifies `head, `notes, `count, `scans, `sleep, `fluxwait
      ensures Valid() && Passed(old(scans), scans, s)
      ensures scans[s] == old(scans[s]).(pc := scans[s].pc, influx := scans[s].influx)
      ensures !scans[s].pc.Marked() ==> Mark(s) !in head
      ensures |scans| == |old(scans)| && |old(head)| > 0 && (old(head)[0].Note? ==> old(head)[0].k in old(notes))
      ensures LookedRight(old(Now()), Now(), s)
    {
      hide Sound, Live, Remove;
      LoopState(s);
      PassedSelf(scans, s);
      RemoveFirst(head);
      if scans[s].left == 0 {
        TakeMarker(s, Idle);
        return;
      }
      var first := head[0];
      if (first.Mark? && first != Mark(s)) || (first.Note? && notes[first.k].Influx()) {
        ScanBlocked(s);
      } else if first == Mark(s) {
        TakeMarker(s, if scans[s].left == scans[s].maxevents then Retry else Idle);
      } else {
        ScanTake(s);
      }
      MarkedState(s);
    }

    /** Lines 1548-1597 for a knote that is not in flux. */
    method ScanTake(s: nat)
      requires Valid() && s < |scans| && scans[s].pc == Loop && scans[s].left > 0
      requires |head| > 0 && head[0].Note? && head[0].k in notes && notes[head[0].k].owner == Nobody
      modifies `head, `notes, `count, `scans
      ensures Valid() && Passed(old(scans), scans, s)
      ensures scans[s] == old(scans[s]).(pc := scans[s].pc) && scans[s].pc.Marked()
      ensures LookedRight(old(Now()), Now(), s)
    {
      hide Sound, Live, Remove, Passed;
      LoopState(s);
      var first := head[0];
      if notes[first.k].disabled {
        TakeNote(s, notes[first.k].(queued := false), Loop);
      } else if notes[first.k].drop {
        TakeNote(s, notes[first.k].(queued := false, owner := ScanDropper(s)), Dropping(first.k, false));
      } else if notes[first.k].oneshot {
        TakeNote(s, notes[first.k].(queued := false, owner := ScanDropper(s)), Dropping(first.k, true));
      } else {
        TakeNote(s, notes[first.k].(owner := Scanner(s), scan := true), Holding(first.k));
      }
    }

    /** Lines 1536-1546: the scan waits for the end of flux. */
    method ScanBlocked(s: nat)
      requires Valid() && s < |scans| && scans[s].pc == Loop
      modifies `scans, `sleep, `fluxwait
      ensures Valid() && Passed(old(scans), scans, s)
      ensures scans[s] == old(scans[s]).(pc := FluxWait, influx := false)
    {
      hide Sound, Live, Passed;
      ghost var was := scans;
      PassedSelf(was, s);
      if scans[s].influx {
        UpdateLoop(s, scans[s].(influx := false));
        PassedOne(was, s, scans[s]);
        ghost var mid := scans;
        FluxWakeup();
        PassedWoken(mid, s);
        PassedSelf(mid, s);
        PassedThen(was, mid, scans, s);
      }
      ghost var late := scans;
      ScanWait(s);
      PassedOne(late, s, scans[s]);
      PassedThen(was, late, scans, s);
    }

    /** msleep on "kqflxwt". */
    method ScanWait(s: nat)
      requires Valid() && s < |scans| && scans[s].pc == Loop
      modifies `scans, `sleep, `fluxwait
      ensures Valid() && scans == old(scans)[s := old(scans)[s].(pc := FluxWait)] && fluxwait
    {
      hide Listed, MarksRight, Queued, Owned, SleepersSafe, ScansRight, Known;
      ScanOf(head, scans, next, s);
      MoveScan(s, scans[s].(pc := FluxWait));
    }

    lemma LoopState(s: nat)
      requires Valid() && s < |scans| && scans[s].pc == Loop
      ensures Mark(s) in head
      ensures |head| > 0 && (head[0].Note? ==> head[0].k in notes && notes[head[0].k].queued)
      ensures scans[s].left + |scans[s].returned| == scans[s].maxevents > 0
    {
      hide MarksRight, ScansRight, Owned, SleepersSafe, Queued;
      MarkOf(head, scans, s);
      ScanOf(head, scans, next, s);
      assert head[0] in head;
    }

    lemma MarkedState(s: nat)
      requires Valid() && s < |scans|
      ensures !scans[s].pc.Marked() ==> Mark(s) !in head
    {
    }

    // ---------------------------------------------------------------- runs

    predicate Enabled(a: Action)
      reads this
    {
      Possible(a, Now())
    }

    /** A write of the status that undoes an activation. */
    predicate Loses(a: Action)
      reads this
    {
      a.StoreStatus? && Enabled(a) && notes[a.k].queued != loads[a.k].queued
    }

    method Step(a: Action)
      requires Valid() && Enabled(a)
      modifies this
      ensures Valid() <==> !old(Loses(a))
      ensures Did(a, old(Now()), Now())
    {
      hide Sound, Live, Became, Passed, LookedRight, Answered, Ended, Remove, Gone;
      match a
      case Event(k, event) => KnoteEvent(k, event);
      case Timer(k) => Activate(k);
      case New(oneshot, drop, clear, dispatch) => var k := RegisterNew(oneshot, drop, clear, dispatch);
      case Update(k, forceOneshot) => RegisterOld(k, forceOneshot);
      case LoadStatus(k) => LoadStatus(k);
      case StoreStatus(k) => StoreStatus(k);
      case EndUpdate(k, event, enable) => RegisterEnd(k, event, enable);
      case Clear(k) => SetOneshot(k);
      case Delete(k) => Doom(k);
      case Freed(k) => Drop(k);
      case _ => ScanStep(a);
    }

    /** The steps of scans. */
    method ScanStep(a: Action)
      requires Valid() && Enabled(a) && a.ByScan()
      modifies this
      ensures Valid() && Did(a, old(Now()), Now())
    {
      hide Sound, Live, Became, Passed, LookedRight, Answered, Remove, Gone, Counts;
      match a
      case BeginScan(s, maxevents) => ScanCall(s, maxevents);
      case LookForEvents(s, nonblocking) => ScanRetry(s, nonblocking);
      case Timeout(s) => ScanGiveUp(s);
      case NextEntry(s) => ScanNext(s);
      case Asked(s, event) => ScanEvent(s, event);
      case Dropped(s) => ScanDrop(s);
      case Copied(s, fail) => CopiedOut(s, fail);
    }

    /** Any interleaving of registrations, events, timers, deletions and scans;
        an action that cannot happen at its turn is left out. All promises hold
        after each action, up to a write of the status that undoes an activation:
        `n` actions have been taken, as `trace` records, and the next one, if any,
        is such a write. */
    method Run(actions: seq<Action>) returns (n: nat, ghost trace: seq<State>)
      requires Valid()
      modifies this
      ensures n <= |actions| && (n < |actions| ==> Loses(actions[n]))
      ensures Traced(actions[..n], trace) && trace[0] == old(Now()) && trace[n] == Now()
      ensures Valid() && count == |Queued(notes)|
      ensures forall k :: NotePromised(k)
      ensures count > 0 ==> forall s :: 0 <= s < |scans| ==> scans[s].pc != Asleep
      ensures forall s :: 0 <= s < |scans| && scans[s].pc == Idle ==> ScanPromised(s)
    {
      hide Sound, Live, NotePromised, ScanPromised, Queued, Followed;
      n, trace := 0, [Now()];
      while n < |actions| && !Loses(actions[n])
        invariant 0 <= n <= |actions| && Valid()
        invariant Traced(actions[..n], trace) && trace[0] == old(Now()) && trace[n] == Now()
      {
        StepIf(actions[n]);
        TracedMore(actions, n, trace, Now());
        trace := trace + [Now()];
        n := n + 1;
      }
      forall k ensures NotePromised(k) {
        NotesPromise(k);
      }
      NotesPromise(0);
      forall s | 0 <= s < |scans| && scans[s].pc == Idle ensures ScanPromised(s) {
        ScanPromise(s);
      }
    }

    method StepIf(a: Action)
      requires Valid() && !Loses(a)
      modifies this
      ensures Valid() && Followed(a, old(Now()), Now())
    {
      hide Sound, Live, Did;
      if Enabled(a) {
        Step(a);
      }
    }

    /** A knote is on the queue exactly when it is queued and no scan holds it,
        and it is queued if it is active, enabled and not being dropped. */
    predicate NotePromised(k: nat)
      reads this
    {
      && (Note(k) in head <==> k in notes && notes[k].queued && !HeldByScan(k))
      && (k in notes && notes[k].active && !notes[k].disabled && !notes[k].Dying() ==> notes[k].queued)
    }

    /** A scan that has ended left no marker and returned no knote twice. */
    predicate ScanPromised(s: nat)
      requires s < |scans|
      reads this
    {
      var sc := scans[s];
      && Mark(s) !in head && |sc.returned| == sc.maxevents - sc.left <= sc.maxevents
      && forall i, j :: 0 <= i < j < |sc.returned| ==> sc.returned[i] != sc.returned[j]
    }

    /** What every reachable state promises about the knotes. */
    lemma NotesPromise(k: nat)
      requires Valid()
      ensures count == |Queued(notes)| && NotePromised(k)
      ensures count > 0 ==> forall s :: 0 <= s < |scans| ==> scans[s].pc != Asleep
    {
      hide MarksRight, ScansRight, Queued, Known;
      if k in notes && notes[k].owner.Scanner? {
        assert scans[notes[k].owner.s].pc == Holding(k);
      }
    }

    predicate HeldByScan(k: nat)
      reads this
    {
      exists s :: 0 <= s < |scans| && scans[s].pc == Holding(k)
    }

    /** What a call of kqueue_scan that has ended promises its caller. */
    lemma ScanPromise(s: nat)
      requires Valid() && s < |scans| && scans[s].pc == Idle
      ensures ScanPromised(s)
    {
      hide Listed, Queued, Owned, SleepersSafe, Known;
      MarkOf(head, scans, s);
      ScanOf(head, scans, next, s);
    }
  }

  lemma BecameSelf(s: State, k: nat)
    requires k in s.notes
    ensures Became(s, s, k, s.notes[k])
  {
    assert s.notes == s.notes[k := s.notes[k]];
  }

  lemma BecameIs(s: State, t: State, k: nat, kn: Knote)
    requires Became(s, t, k, kn)
    ensures k in s.notes && t.notes == s.notes[k := kn]
  {
  }

  lemma BecameThen(s: State, t: State, u: State, k: nat, kn: Knote, kn': Knote)
    requires Became(s, t, k, kn) && Became(t, u, k, kn')
    ensures Became(s, u, k, kn')
  {
    hide Passed;
    assert u.notes == s.notes[k := kn'];
    PassedSize(s.scans, t.scans, |s.scans|);
    PassedThen(s.scans, t.scans, u.scans, |s.scans|);
    if forall i :: 0 <= i < |t.scans| ==> t.scans[i].pc != Asleep {
      AwakeStays(t.scans, u.scans);
    }
  }

  lemma PassedSize(was: seq<Scan>, now: seq<Scan>, s: nat)
    requires Passed(was, now, s)
    ensures |was| == |now|
  {
  }

  lemma AwakeStays(was: seq<Scan>, now: seq<Scan>)
    requires Passed(was, now, |was|) && forall i :: 0 <= i < |was| ==> was[i].pc != Asleep
    ensures forall i :: 0 <= i < |now| ==> now[i].pc != Asleep
  {
  }

  lemma BecameWoken(s: State, t: State, u: State, k: nat, kn: Knote)
    requires Became(s, t, k, kn) && u == t.(fluxwait := u.fluxwait, scans := u.scans) && (u.scans == t.scans || u.scans == Woken(t.scans))
    ensures Became(s, u, k, kn)
  {
    PassedWoken(t.scans, |t.scans|);
    PassedSelf(t.scans, |t.scans|);
    assert Became(t, u, k, kn) by { assert t.notes == t.notes[k := kn]; }
    BecameThen(s, t, u, k, kn, kn);
  }

  lemma PassedSelf(scans: seq<Scan>, s: nat)
    ensures Passed(scans, scans, s)
  {
  }

  lemma PassedOne(scans: seq<Scan>, s: nat, sc: Scan)
    requires s < |scans|
    ensures Passed(scans, scans[s := sc], s)
  {
  }

  lemma PassedWoken(scans: seq<Scan>, s: nat)
    ensures Passed(scans, Woken(scans), s)
  {
  }

  lemma PassedThen(scans: seq<Scan>, scans1: seq<Scan>, scans2: seq<Scan>, s: nat)
    requires Passed(scans, scans1, s) && Passed(scans1, scans2, s)
    ensures Passed(scans, scans2, s)
  {
    forall u | 0 <= u < |scans| && u != s
      ensures scans2[u] == scans[u] || scans2[u] == WokenOne(scans[u])
    {
      assert WokenOne(WokenOne(scans[u])) == WokenOne(scans[u]);
    }
  }

  lemma RemoveFirst(head: seq<Entry>)
    requires |head| > 0
    ensures head[0] in head && Remove(head, head[0]) == head[1..]
  {
  }

  /** A knote at the head has not been returned by the scan that takes it. */
  lemma TakenScan(head: seq<Entry>, scans: seq<Scan>, next: nat, s: nat, k: nat, sc: Scan)
    requires s < |scans| && scans[s].pc == Loop && ScansRight(head, scans, next) && MarksRight(head, scans)
    requires |head| > 0 && head[0] == Note(k) && ScansRight(Remove(head, Note(k)), scans, next)
    requires sc == scans[s].(pc := sc.pc) && sc.left > 0
    requires sc.pc == Loop || sc.pc == Holding(k) || (sc.pc.Dropping? && sc.pc.k == k)
    ensures ScanRight(Remove(head, Note(k)), sc, s, next)
  {
    hide Behind, Remove;
    ScanOf(head, scans, next, s);
    ScanOf(Remove(head, Note(k)), scans, next, s);
    assert Mark(s) in head;
    FirstIsAhead(head, k, s);
  }

  lemma TakenQueue(head: seq<Entry>, notes: Notes, scans: seq<Scan>, next: nat, s: nat, sc: Scan, k: nat, kn: Knote)
    requires Listed(head, notes) && MarksRight(head, scans) && ScansRight(head, scans, next)
    requires |head| > 0 && head[0] == Note(k) && !kn.OnList()
    requires s < |scans| && scans[s].pc == Loop && sc == scans[s].(pc := sc.pc) && sc.left > 0
    requires sc.pc == Loop || sc.pc == Holding(k) || (sc.pc.Dropping? && sc.pc.k == k)
    ensures Listed(head[1..], notes[k := kn]) && MarksRight(head[1..], scans[s := sc])
    ensures ScansRight(head[1..], scans[s := sc], next) && k in notes && notes[k].queued
  {
    hide MarksRight, ScansRight, Remove, ScanRight;
    RemoveFirst(head);
    ListedRemove(head, notes, k, kn);
    MarksRemove(head, scans, k);
    hide Listed;
    MarksOne(head[1..], scans, s, sc);
    RemoveRight(head, scans, next, Note(k));
    TakenScan(head, scans, next, s, k, sc);
    ScansOne(head[1..], scans, next, s, sc);
  }

  lemma TakenOwned(notes: Notes, scans: seq<Scan>, s: nat, sc: Scan, k: nat, kn: Knote)
    requires Owned(notes, scans) && s < |scans| && scans[s].pc == Loop && k in notes && !notes[k].Influx()
    requires (sc.pc == Loop && kn.owner == Nobody)
          || (sc.pc == Holding(k) && kn.queued && kn.owner == Scanner(s))
          || (sc.pc.Dropping? && sc.pc.k == k && kn.owner == ScanDropper(s))
    ensures Owned(notes[k := kn], scans[s := sc])
  {
    hide Owned;
    if sc.pc == Loop {
      OwnedSame(notes, scans, k, kn);
      OwnedOne(notes[k := kn], scans, s, sc);
    } else {
      OwnedTake(notes, scans, s, sc, k, kn);
    }
  }

  /** `sc` after one more event has been put into the buffer. */
  function Delivered(sc: Scan, k: nat): Scan
    requires sc.left > 0
  {
    sc.(pc := Loop, left := sc.left - 1, nkev := sc.nkev + 1, returned := sc.returned + [k])
  }

  lemma MarkOf(head: seq<Entry>, scans: seq<Scan>, s: nat)
    requires MarksRight(head, scans) && s < |scans|
    ensures scans[s].pc.Marked() <==> Mark(s) in head
  {
  }

  lemma HeldNote(notes: Notes, scans: seq<Scan>, s: nat)
    requires Owned(notes, scans) && s < |scans| && scans[s].pc.Holding?
    ensures scans[s].pc.k in notes && notes[scans[s].pc.k].queued && notes[scans[s].pc.k].owner == Scanner(s)
  {
  }

  /** An event of a knote that is behind the marker, or nowhere, is new. */
  lemma DeliveredRight(head: seq<Entry>, was: Scan, sc: Scan, s: nat, next: nat)
    requires ScanRight(head, was, s, next) && (was.pc.Holding? || was.pc.Dropping?)
    requires Behind(head, was.pc.k, s) || Note(was.pc.k) !in head
    requires was.pc.k < next
    requires sc == was.(pc := Loop, influx := sc.influx) || sc == Delivered(was.(influx := sc.influx), was.pc.k)
    ensures ScanRight(head, sc, s, next)
  {
    if Note(was.pc.k) !in head {
      BehindAway(head, was.pc.k, s);
    }
    hide Behind;
  }

  lemma GivenQueue(head: seq<Entry>, notes: Notes, scans: seq<Scan>, next: nat, s: nat, sc: Scan, kn: Knote)
    requires Listed(head, notes) && MarksRight(head, scans) && ScansRight(head, scans, next) && Known(notes, next)
    requires s < |scans| && scans[s].pc.Holding? && kn.owner == Nobody
    requires scans[s].pc.k in notes && notes[scans[s].pc.k].owner == Scanner(s)
    requires scans[s].left > 0
    requires sc == scans[s].(pc := Loop, influx := true) || sc == Delivered(scans[s].(influx := true), scans[s].pc.k)
    ensures var k := scans[s].pc.k;
            var head' := if kn.queued then head + [Note(k)] else head;
            Listed(head', notes[k := kn]) && MarksRight(head', scans[s := sc]) && ScansRight(head', scans[s := sc], next)
  {
    hide MarksRight, ScansRight, ScanRight, Behind;
    var k := scans[s].pc.k;
    NoteAbsent(head, notes, k);
    MarkOf(head, scans, s);
    var head' := head;
    if kn.queued {
      head' := head + [Note(k)];
      AppendRight(head, scans, next, Note(k));
      MarksAppend(head, scans, k);
      ListedAppend(head, notes, k, kn);
      hide Listed;
      ListedNoDup(head', notes[k := kn]);
      LastIsBehind(head, k, s);
    } else {
      ListedSame(head, notes, k, kn);
      hide Listed;
      BehindAway(head, k, s);
    }
    ScanOf(head', scans, next, s);
    KnownHas(notes, next, k);
    DeliveredRight(head', scans[s], sc, s, next);
    MarksOne(head', scans, s, sc);
    ScansOne(head', scans, next, s, sc);
  }

  lemma LastIsBehind(head: seq<Entry>, k: nat, s: nat)
    requires Note(k) !in head
    ensures Behind(head + [Note(k)], k, s)
  {
  }

  lemma ListedNoDup(head: seq<Entry>, notes: Notes)
    requires Listed(head, notes)
    ensures NoDup(head)
  {
  }

  lemma AppendedScan(head: seq<Entry>, scans: seq<Scan>, next: nat, s: nat, sc: Scan)
    requires s < |scans| && ScanRight(head, scans[s], s, next) && scans[s].pc == Retry
    requires sc.pc == Loop && sc == scans[s].(pc := Loop, influx := sc.influx)
    requires forall t :: 0 <= t < |scans| && t != s ==> ScanRight(head + [Mark(s)], scans[t], t, next)
    ensures ScansRight(head + [Mark(s)], scans[s := sc], next)
  {
    hide Behind;
  }

  lemma QueuedSome(notes: Notes, k: nat)
    requires k in notes && notes[k].queued
    ensures |Queued(notes)| > 0
  {
    assert k in Queued(notes);
  }

  lemma NotKnown(notes: Notes, next: nat)
    requires Known(notes, next)
    ensures next !in notes
  {
  }

  lemma NextRight(head: seq<Entry>, scans: seq<Scan>, next: nat)
    requires ScansRight(head, scans, next)
    ensures ScansRight(head, scans, next + 1)
  {
    hide Behind;
    forall s | 0 <= s < |scans|
      ensures ScanRight(head, scans[s], s, next + 1)
    {
      assert ScanRight(head, scans[s], s, next);
    }
  }

  // ---------------------------------------------------------------- knotes that have been returned

  /** The knote is off the queue, and no scan or registering thread will put it
      back of its own accord. */
  ghost predicate Quiet(s: State, k: nat) {
    && k < s.next && Note(k) !in s.head
    && (k in s.notes ==> !s.notes[k].active && !s.notes[k].queued)
    && (k in s.loads ==> !s.loads[k].active && !s.loads[k].queued)
    && (forall i :: 0 <= i < |s.scans| ==> s.scans[i].pc != Holding(k))
  }

  /** The action reports an event of the knote, or forces one. */
  predicate Activates(a: Action, k: nat) {
    match a
    case Event(j, event) => j == k && event
    case Timer(j) => j == k
    case Update(j, forceOneshot) => j == k && forceOneshot
    case EndUpdate(j, event, _) => j == k && event
    case _ => false
  }

  /** What registering threads remember is of knotes they have. */
  ghost predicate Loading(s: State) {
    (forall k :: k in s.loads ==> k in s.notes && s.notes[k].owner == Registrar) && forall k :: k in s.notes ==> k < s.next
  }

  lemma LoadingStays(a: Action, s: State, t: State)
    requires Loading(s) && Followed(a, s, t)
    ensures Loading(t)
  {
    hide Passed, Counts, Remove;
    if Possible(a, s) && a.ByScan() {
      LoadingScan(a, s, t);
    }
  }

  lemma LoadingScan(a: Action, s: State, t: State)
    requires Loading(s) && Possible(a, s) && a.ByScan() && ScanDid(a, s, t)
    ensures Loading(t)
  {
    hide Passed, Counts, Remove;
  }

  lemma QuietStays(a: Action, s: State, t: State, k: nat)
    requires Quiet(s, k) && Followed(a, s, t) && !Activates(a, k)
    ensures Quiet(t, k)
  {
    hide Counts;
    if Possible(a, s) {
      if a.ByScan() {
        QuietScan(a, s, t, k);
      } else {
        RemoveKeeps(s.head, k);
        hide Passed, Remove;
        if t.scans != s.scans {
          NotTaken(s.scans, t.scans, |s.scans|, k);
        }
      }
    }
  }

  lemma NotTaken(was: seq<Scan>, now: seq<Scan>, s: nat, k: nat)
    requires Passed(was, now, s) && forall i :: 0 <= i < |was| ==> was[i].pc != Holding(k)
    ensures forall i :: 0 <= i < |now| && i != s ==> now[i].pc != Holding(k)
  {
  }

  lemma RemoveKeeps(head: seq<Entry>, k: nat)
    requires Note(k) !in head
    ensures forall x :: x in head ==> Note(k) !in Remove(head, x)
  {
  }

  lemma QuietScan(a: Action, s: State, t: State, k: nat)
    requires Quiet(s, k) && Possible(a, s) && a.ByScan() && ScanDid(a, s, t)
    ensures Quiet(t, k)
  {
    RemoveKeeps(s.head, k);
    hide Remove;
    match a
    case NextEntry(i) => NotTaken(s.scans, t.scans, i, k);
    case Asked(i, _) => NotTaken(s.scans, t.scans, i, k);
    case Dropped(i) => NotTaken(s.scans, t.scans, i, k);
    case Copied(i, _) => NotTaken(s.scans, t.scans, i, k);
    case _ =>
  }

  /** A knote with EV_CLEAR or EV_DISPATCH that has been returned, or one whose
      filter said no, is quiet. */
  lemma AskedIsQuiet(s: State, t: State, i: nat, event: bool)
    requires Loading(s) && Possible(Asked(i, event), s) && Did(Asked(i, event), s, t)
    ensures var k := s.scans[i].pc.k; k in s.notes && (!event || s.notes[k].clear || s.notes[k].dispatch ==> Quiet(t, k))
  {
    var k := s.scans[i].pc.k;
    assert Answered(s.notes[k], event, t.notes[k]);
    assert k !in s.loads;
  }

  lemma {:induction false} LoadingTrace(actions: seq<Action>, trace: seq<State>, i: nat)
    requires Traced(actions, trace) && Loading(trace[0]) && i <= |actions|
    ensures Loading(trace[i])
  {
    hide Followed, Loading;
    if i > 0 {
      LoadingTrace(actions, trace, i - 1);
      assert Followed(actions[i - 1], trace[i - 1], trace[i - 1 + 1]);
      LoadingStays(actions[i - 1], trace[i - 1], trace[i]);
    }
  }

  lemma {:induction false} QuietTrace(actions: seq<Action>, trace: seq<State>, i: nat, j: nat, k: nat)
    requires Traced(actions, trace) && i <= j <= |actions| && Quiet(trace[i], k)
    requires forall n :: i <= n < j ==> !Activates(actions[n], k)
    ensures Quiet(trace[j], k)
    decreases j - i
  {
    hide Followed, Quiet, Activates;
    if i < j {
      QuietTrace(actions, trace, i, j - 1, k);
      assert Followed(actions[j - 1], trace[j - 1], trace[j - 1 + 1]);
      QuietStays(actions[j - 1], trace[j - 1], trace[j], k);
    }
  }

  /** In any run, a knote with EV_CLEAR or EV_DISPATCH that a scan has returned
      stays off the queue, and no scan takes it, until something activates it. */
  lemma ClearedStaysOff(actions: seq<Action>, trace: seq<State>, i: nat, j: nat, s: nat)
    requires Traced(actions, trace) && Loading(trace[0]) && i < j <= |actions|
    requires actions[i] == Asked(s, true) && Possible(actions[i], trace[i])
    requires var k := trace[i].scans[s].pc.k;
             && k in trace[i].notes && (trace[i].notes[k].clear || trace[i].notes[k].dispatch)
             && forall n :: i < n < j ==> !Activates(actions[n], k)
    ensures var k := trace[i].scans[s].pc.k;
            && Note(k) !in trace[j].head && (k in trace[j].notes ==> !trace[j].notes[k].queued)
            && forall u :: 0 <= u < |trace[j].scans| ==> trace[j].scans[u].pc != Holding(k)
  {
    var k := trace[i].scans[s].pc.k;
    hide Possible, Did, Loading, Activates;
    LoadingTrace(actions, trace, i);
    assert Followed(actions[i], trace[i], trace[i + 1]);
    AskedIsQuiet(trace[i], trace[i + 1], s, true);
    QuietTrace(actions, trace, i + 1, j, k);
  }

  /** A timer that expires between the two accesses of line 1284: the knote is on
      the list and counted, but no longer marked as queued. */
  method LostActivation() returns (kq: Kqueue, k: nat)
    ensures fresh(kq) && !kq.Valid() && k in kq.notes && !kq.notes[k].queued && Note(k) in kq.head && kq.count == 1
  {
    hide Listed, MarksRight, Queued, Owned, SleepersSafe, ScansRight, Known;
    kq := new Kqueue(0);
    k := kq.RegisterNew(false, false, false, false);
    kq.LoadStatus(k);
    kq.Activate(k);
    kq.NotesPromise(k);
    OneQueued(kq.notes, k);
    kq.StoreStatus(k);
  }

  lemma OneQueued(notes: Notes, k: nat)
    requires notes.Keys == {k} && notes[k].queued
    ensures |Queued(notes)| == 1
  {
    assert Queued(notes) == {k};
  }
}
