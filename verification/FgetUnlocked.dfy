/** The lock-free descriptor lookup of kern_descrip.c, run by any number of
    threads against installs, closes, duplications, table growth and the
    recycling of file objects. Every method of `Process` is one atomic action:
    a single memory access of a looking-up thread, or a region another thread
    runs with the descriptor table locked. */
module FgetUnlocked {

  /** A file object is an index into the zone's objects; the zone never
      returns their memory, it hands it out again as another file. */
  type File = nat

  datatype Slot = Null | Open(fp: File)

  /** Where a call of fget_unlocked is, named by what it does next, with the
      local variables `fdt` (as a table number), `fp` and `count`. */
  datatype Pc =
    | Ready
    | LoadSlot(fdt: nat)
    | LoadCount(fdt: nat, fp: File)
    | Reload
    | CmpSet(fdt: nat, fp: File, count: nat)
    | Reread(fp: File)
    | Recheck(fdt: nat, fp: File)
    | Undo(fdt: nat, fp: File)
    | BadRange
    | BadEntry
    | Success(fp: File)
  {
    predicate Holds() { Reread? || Recheck? || Undo? || Success? }

    /** The reference on a file the thread owns at this point. */
    function Ref(): Slot {
      if Holds() then Open(fp) else Null
    }

    predicate Done() { Success? || BadEntry? || BadRange? }

    predicate HasTable() { LoadSlot? || LoadCount? || CmpSet? || Recheck? || Undo? }
  }

  datatype Thread = Thread(fd: nat, pc: Pc)

  function Refs(threads: seq<Thread>): (r: seq<Slot>)
    ensures |r| == |threads| && forall t :: 0 <= t < |r| ==> r[t] == threads[t].pc.Ref()
  {
    seq(|threads|, t requires 0 <= t < |threads| => threads[t].pc.Ref())
  }

  lemma RefsUpdate(threads: seq<Thread>, t: nat, th: Thread)
    requires t < |threads|
    ensures multiset(Refs(threads[t := th])) == multiset(Refs(threads)) - multiset{threads[t].pc.Ref()} + multiset{th.pc.Ref()}
  {
    assert Refs(threads[t := th]) == Refs(threads)[t := th.pc.Ref()];
  }

  lemma HeldOnce(threads: seq<Thread>, t: nat)
    requires t < |threads|
    ensures multiset(Refs(threads))[threads[t].pc.Ref()] >= 1
  {
    assert Refs(threads)[t] in Refs(threads);
  }

  function One(s: Slot): multiset<Slot> {
    if s.Open? then multiset{s} else multiset{}
  }

  /** Everything that refers to a file: the slots of the current table, the
      looking-up threads, and the references held by other code. */
  ghost function Owners(table: seq<Slot>, threads: seq<Thread>, others: multiset<Slot>): multiset<Slot> {
    (multiset(table) + multiset(Refs(threads)) + others)[Null := 0]
  }

  lemma OwnersStored(table: seq<Slot>, fd: nat, s: Slot, threads: seq<Thread>, others: multiset<Slot>)
    requires fd < |table|
    ensures One(table[fd]) <= Owners(table, threads, others)
    ensures Owners(table[fd := s], threads, others) == Owners(table, threads, others) - One(table[fd]) + One(s)
  {
    hide Refs;
    assert table[fd] in multiset(table);
    Exchanged(multiset(table), multiset(Refs(threads)) + others, table[fd], s);
    assert multiset(table[fd := s]) == multiset(table) - multiset{table[fd]} + multiset{s};
    assert forall m: multiset<Slot> :: m + multiset(Refs(threads)) + others == m + (multiset(Refs(threads)) + others);
  }

  /** One slot of a multiset takes the place of another. */
  lemma Exchanged(m: multiset<Slot>, rest: multiset<Slot>, x: Slot, y: Slot)
    requires x in m
    ensures One(x) <= (m + rest)[Null := 0]
    ensures (m - multiset{x} + multiset{y} + rest)[Null := 0] == (m + rest)[Null := 0] - One(x) + One(y)
  {
  }

  lemma OwnersMoved(table: seq<Slot>, threads: seq<Thread>, t: nat, th: Thread, others: multiset<Slot>)
    requires t < |threads|
    ensures One(threads[t].pc.Ref()) <= Owners(table, threads, others)
    ensures Owners(table, threads[t := th], others) == Owners(table, threads, others) - One(threads[t].pc.Ref()) + One(th.pc.Ref())
  {
    RefsUpdate(threads, t, th);
    HeldOnce(threads, t);
  }

  lemma OwnersGiven(table: seq<Slot>, threads: seq<Thread>, others: multiset<Slot>, s: Slot)
    requires s.Open?
    ensures Owners(table, threads, others + multiset{s}) == Owners(table, threads, others) + One(s)
    ensures s in others ==> One(s) <= Owners(table, threads, others)
    ensures s in others ==> Owners(table, threads, others - multiset{s}) == Owners(table, threads, others) - One(s)
  {
  }

  /** A reference that passes from a thread to other code stays counted. */
  lemma OwnersHanded(table: seq<Slot>, threads: seq<Thread>, t: nat, th: Thread, others: multiset<Slot>)
    requires t < |threads| && !th.pc.Holds()
    ensures Owners(table, threads[t := th], others + One(threads[t].pc.Ref())) == Owners(table, threads, others)
  {
    hide Owners, Refs;
    var r := threads[t].pc.Ref();
    OwnersMoved(table, threads, t, th, others);
    var owners := Owners(table, threads, others);
    assert owners - One(r) + One(Null) + One(r) == owners;
    if r.Open? {
      OwnersGiven(table, threads[t := th], others, r);
    } else {
      assert others + One(r) == others;
      assert owners - One(r) + One(Null) == owners;
    }
  }

  type Tables = seq<seq<Slot>>

  predicate SlotIn(s: Slot, files: nat) {
    s.Open? ==> s.fp < files
  }

  /** Tables never shrink from one to the next, and name existing files. */
  ghost predicate Tabular(tables: Tables, files: nat) {
    && |tables| > 0
    && (forall i, j :: 0 <= i <= j < |tables| ==> |tables[i]| <= |tables[j]|)
    && (forall i, fd :: 0 <= i < |tables| && 0 <= fd < |tables[i]| ==> SlotIn(tables[i][fd], files))
  }

  function Current(tables: Tables): seq<Slot>
    requires |tables| > 0
  {
    tables[|tables| - 1]
  }

  /** Every live file's count is the number of its slots in the current table
      plus the references held on it; a dead file has neither. */
  ghost predicate Counted(count: seq<nat>, owners: multiset<Slot>) {
    && (forall f :: 0 <= f < |count| ==> count[f] == owners[Open(f)])
    && (forall s :: s in owners ==> s.Open? && s.fp < |count|)
  }

  predicate Raised(old_: seq<nat>, fp: File, new_: seq<nat>) {
    fp < |old_| && old_[fp] > 0 && new_ == old_[fp := old_[fp] + 1]
  }

  predicate Lowered(old_: seq<nat>, fp: File, new_: seq<nat>) {
    fp < |old_| && old_[fp] > 0 && new_ == old_[fp := old_[fp] - 1]
  }

  lemma OwnedFile(count: seq<nat>, owners: multiset<Slot>, s: Slot)
    requires Counted(count, owners) && s.Open? && One(s) <= owners
    ensures s.fp < |count| && count[s.fp] == owners[s] > 0
  {
    assert s in One(s);
  }

  lemma CountedMore(count: seq<nat>, owners: multiset<Slot>, s: Slot)
    requires Counted(count, owners) && s.Open? && s.fp < |count|
    ensures Counted(count[s.fp := count[s.fp] + 1], owners + One(s))
  {
  }

  lemma CountedLess(count: seq<nat>, owners: multiset<Slot>, s: Slot)
    requires Counted(count, owners) && s.Open? && One(s) <= owners
    ensures s.fp < |count| && count[s.fp] > 0
    ensures Counted(count[s.fp := count[s.fp] - 1], owners - One(s))
    ensures count[s.fp] == 1 <==> s !in owners - One(s)
  {
    OwnedFile(count, owners, s);
  }

  /** What a looking-up thread knows: its table is an old or the current one,
      and the slot it reads there is one the current table has held (`seen`)
      since the thread last read fd_files. */
  ghost predicate Informed(th: Thread, seen: set<Slot>, tables: Tables, files: nat)
    requires |tables| > 0
  {
    && (th.pc.HasTable() ==>
      && th.pc.fdt < |tables| && th.fd < |tables[th.pc.fdt]|
      && tables[th.pc.fdt][th.fd] in seen)
    && (th.pc.HasTable() || th.pc == Reload || th.pc.Reread? ==>
      && th.fd < |Current(tables)|)
    && (th.pc.Holds() || th.pc.LoadCount? || th.pc.CmpSet? ==> th.pc.fp < files)
    && (th.pc.CmpSet? ==> th.pc.count > 0)
    && (th.pc.Success? ==> Open(th.pc.fp) in seen)
    && (th.pc == BadEntry ==> Null in seen)
  }

  ghost predicate AllInformed(threads: seq<Thread>, seen: seq<set<Slot>>, tables: Tables, files: nat)
    requires |tables| > 0
  {
    |seen| == |threads| && forall t :: 0 <= t < |threads| ==> Informed(threads[t], seen[t], tables, files)
  }

  lemma InformedMove(threads: seq<Thread>, seen: seq<set<Slot>>, t: nat, th: Thread, tables: Tables, files: nat)
    requires |tables| > 0 && AllInformed(threads, seen, tables, files)
    requires t < |threads| && Informed(th, seen[t], tables, files)
    ensures AllInformed(threads[t := th], seen, tables, files)
  {
    hide Informed;
  }

  lemma SeenAnew(threads: seq<Thread>, seen: seq<set<Slot>>, t: nat, now: set<Slot>, tables: Tables, files: nat)
    requires |tables| > 0 && AllInformed(threads, seen, tables, files)
    requires t < |threads| && (threads[t].pc == Ready || threads[t].pc == Reload || threads[t].pc.Reread?)
    ensures AllInformed(threads, seen[t := now], tables, files)
  {
  }

  lemma InformedOf(threads: seq<Thread>, seen: seq<set<Slot>>, t: nat, tables: Tables, files: nat)
    requires |tables| > 0 && AllInformed(threads, seen, tables, files) && t < |threads|
    ensures Informed(threads[t], seen[t], tables, files)
  {
  }

  /** `seen` after a change of the current table. */
  ghost function Noted(seen: seq<set<Slot>>, threads: seq<Thread>, table: seq<Slot>): (r: seq<set<Slot>>)
    requires |seen| == |threads|
    ensures |r| == |seen|
    ensures forall t :: 0 <= t < |r| ==> r[t] == seen[t] + At(table, threads[t].fd)
  {
    seq(|seen|, t requires 0 <= t < |seen| => seen[t] + At(table, threads[t].fd))
  }

  ghost function At(table: seq<Slot>, fd: nat): set<Slot> {
    if fd < |table| then {table[fd]} else {}
  }

  function Stored(tables: Tables, fd: nat, s: Slot): Tables
    requires |tables| > 0 && fd < |Current(tables)|
  {
    tables[|tables| - 1 := Current(tables)[fd := s]]
  }

  lemma StoredTabular(tables: Tables, files: nat, fd: nat, s: Slot)
    requires Tabular(tables, files) && fd < |Current(tables)| && SlotIn(s, files)
    ensures Tabular(Stored(tables, fd, s), files)
    ensures Current(Stored(tables, fd, s)) == Current(tables)[fd := s]
  {
    hide SlotIn;
  }

  /** A thread on an old table still reads what it would have read; one on the
      current table reads what `seen` has just been given. */
  lemma StoredInformed(threads: seq<Thread>, seen: seq<set<Slot>>, tables: Tables, files: nat, fd: nat, s: Slot)
    requires |tables| > 0 && fd < |Current(tables)|
    requires AllInformed(threads, seen, tables, files)
    ensures AllInformed(threads, Noted(seen, threads, Current(tables)[fd := s]), Stored(tables, fd, s), files)
  {
    hide Tabular, Informed;
    forall t | 0 <= t < |threads|
      ensures Informed(threads[t], Noted(seen, threads, Current(tables)[fd := s])[t], Stored(tables, fd, s), files)
    {
      StoredInformedOne(threads[t], seen[t], tables, files, fd, s);
    }
  }

  lemma StoredInformedOne(th: Thread, seen: set<Slot>, tables: Tables, files: nat, fd: nat, s: Slot)
    requires |tables| > 0 && fd < |Current(tables)| && Informed(th, seen, tables, files)
    ensures Informed(th, seen + At(Current(tables)[fd := s], th.fd), Stored(tables, fd, s), files)
  {
  }

  function Grown(tables: Tables, nnfiles: nat): Tables
    requires |tables| > 0 && nnfiles >= |Current(tables)|
  {
    tables + [Current(tables) + seq(nnfiles - |Current(tables)|, i => Null)]
  }

  lemma GrownTabular(tables: Tables, files: nat, nnfiles: nat)
    requires Tabular(tables, files) && nnfiles >= |Current(tables)|
    ensures Tabular(Grown(tables, nnfiles), files)
  {
    var g := Grown(tables, nnfiles);
    forall i, fd | 0 <= i < |g| && 0 <= fd < |g[i]|
      ensures SlotIn(g[i][fd], files)
    {
      if i == |tables| && fd < |Current(tables)| {
        assert g[i][fd] == tables[|tables| - 1][fd];
      }
    }
  }

  lemma GrownOwners(tables: Tables, nnfiles: nat, threads: seq<Thread>, others: multiset<Slot>)
    requires |tables| > 0 && nnfiles >= |Current(tables)|
    ensures Owners(Current(Grown(tables, nnfiles)), threads, others) == Owners(Current(tables), threads, others)
  {
    var nulls := seq(nnfiles - |Current(tables)|, i => Null);
    forall s: Slot | s.Open?
      ensures multiset(nulls)[s] == 0
    {
      assert s !in nulls;
    }
  }

  lemma GrownInformed(threads: seq<Thread>, seen: seq<set<Slot>>, tables: Tables, files: nat, nnfiles: nat)
    requires |tables| > 0 && nnfiles >= |Current(tables)|
    requires AllInformed(threads, seen, tables, files)
    ensures AllInformed(threads, Noted(seen, threads, Current(Grown(tables, nnfiles))), Grown(tables, nnfiles), files)
  {
  }

  /** Where the next memory access takes a call. */
  function Next(th: Thread, tables: Tables, count: seq<nat>): Pc
    requires |tables| > 0
    requires th.pc.HasTable() ==> th.pc.fdt < |tables| && th.fd < |tables[th.pc.fdt]|
    requires th.pc.LoadCount? || th.pc.CmpSet? ==> th.pc.fp < |count|
  {
    match th.pc
    case LoadSlot(fdt) => if tables[fdt][th.fd].Open? then LoadCount(fdt, tables[fdt][th.fd].fp) else BadEntry
    case LoadCount(fdt, fp) => if count[fp] == 0 then Reload else CmpSet(fdt, fp, count[fp])
    case Reload => LoadSlot(|tables| - 1)
    case CmpSet(fdt, fp, n) => if count[fp] == n then Reread(fp) else LoadCount(fdt, fp)
    case Reread(fp) => Recheck(|tables| - 1, fp)
    case Recheck(fdt, fp) => if tables[fdt][th.fd] == Open(fp) then Success(fp) else Undo(fdt, fp)
    case Undo(fdt, _) => LoadSlot(fdt)
    case _ => th.pc
  }

  /** One atomic action: of a thread looking a descriptor up (the first
      three), or of the rest of the kernel. */
  datatype Action =
    | Advance(t: nat)
    | Call(t: nat, fd: nat)
    | Return(t: nat)
    | Falloc(fp: File)
    | Install(fd: nat, fp: File)
    | Close(fd: nat)
    | Dup(from: nat, to: nat)
    | Hold(fd: nat)
    | Share(fp: File)
    | Drop(fp: File)
    | Grow(nnfiles: nat)

  /** What a call under way knows of tables and files. */
  ghost predicate Placed(th: Thread, tables: Tables, count: seq<nat>) {
    && |tables| > 0
    && (th.pc.HasTable() ==> th.pc.fdt < |tables| && th.fd < |tables[th.pc.fdt]|)
    && (!th.pc.Done() ==> th.fd < |Current(tables)|)
    && (th.pc.Holds() || th.pc.LoadCount? || th.pc.CmpSet? ==> th.pc.fp < |count|)
    && (th.pc.Undo? ==> count[th.pc.fp] > 0)
    && (th.fd < |Current(tables)| && Current(tables)[th.fd].Open? ==>
          Current(tables)[th.fd].fp < |count| && count[Current(tables)[th.fd].fp] > 0)
    && (forall i :: 0 <= i < |tables| && th.fd < |tables[i]| ==> SlotIn(tables[i][th.fd], |count|))
  }

  /** The number of memory accesses a call still makes at most when no other
      action comes in between: an old table costs one more round. */
  ghost function Left(th: Thread, tables: Tables, count: seq<nat>): nat
    requires Placed(th, tables, count)
  {
    var last := |tables| - 1;
    match th.pc
    case LoadSlot(fdt) => if fdt == last then 5 else 11
    case LoadCount(_, fp) => if tables[last][th.fd] == Open(fp) then 4 else if count[fp] == 0 then 7 else 10
    case Reload => 6
    case CmpSet(_, fp, n) => (if tables[last][th.fd] == Open(fp) then 3 else 9) + if count[fp] == n then 0 else 2
    case Reread(fp) => if tables[last][th.fd] == Open(fp) then 2 else 8
    case Recheck(fdt, fp) => if tables[fdt][th.fd] == Open(fp) then 1 else if fdt == last then 7 else 13
    case Undo(fdt, _) => if fdt == last then 6 else 12
    case _ => 0
  }

  lemma NotMore(th: Thread, tables: Tables, count: seq<nat>)
    requires Placed(th, tables, count)
    ensures Left(th, tables, count) <= 13
  {
  }

  lemma NextStays(th: Thread, tables: Tables, count: seq<nat>)
    requires Placed(th, tables, count) && th.pc != Ready
    ensures Next(th, tables, count) != Ready
  {
  }

  lemma LeftLess(th: Thread, tables: Tables, count: seq<nat>, th': Thread)
    requires Placed(th, tables, count) && th.pc != Ready && !th.pc.Done() && th' == th.(pc := Next(th, tables, count))
    requires Placed(th', tables, CountsAfter(th, count))
    ensures Left(th', tables, CountsAfter(th, count)) < Left(th, tables, count)
  {
  }

  /** What the code has done with the counts. */
  function CountsAfter(th: Thread, count: seq<nat>): seq<nat>
    requires th.pc.CmpSet? || th.pc.Undo? ==> th.pc.fp < |count|
  {
    match th.pc
    case CmpSet(_, fp, n) => if count[fp] == n then count[fp := n + 1] else count
    case Undo(_, fp) => count[fp := if count[fp] > 0 then count[fp] - 1 else 0]
    case _ => count
  }

  /** All that actions read and change. */
  datatype State = State(tables: Tables, count: seq<nat>, threads: seq<Thread>, others: multiset<Slot>)

  predicate Possible(a: Action, s: State)
    requires |s.tables| > 0
  {
    var table := Current(s.tables);
    match a
    case Advance(t) => t < |s.threads|
    case Call(t, fd) => t < |s.threads| && s.threads[t].pc == Ready
    case Return(t) => t < |s.threads| && s.threads[t].pc.Done()
    case Falloc(fp) => fp < |s.count| && s.count[fp] == 0
    case Install(fd, fp) => fd < |table| && table[fd] == Null && Open(fp) in s.others
    case Close(fd) => fd < |table| && table[fd].Open?
    case Dup(from, to) => from < |table| && to < |table| && from != to && table[from].Open?
    case Hold(fd) => fd < |table| && table[fd].Open?
    case Share(fp) => Open(fp) in s.others
    case Drop(fp) => Open(fp) in s.others
    case Grow(nnfiles) => nnfiles >= |table|
  }

  /** What an action makes of the state. */
  ghost predicate Did(a: Action, s: State, s': State) {
    && |s.tables| > 0 && Possible(a, s)
    && var table := Current(s.tables);
       match a
       case Advance(t) =>
         var th := s.threads[t];
         && (th.pc.HasTable() ==> th.pc.fdt < |s.tables| && th.fd < |s.tables[th.pc.fdt]|)
         && (th.pc.LoadCount? || th.pc.CmpSet? || th.pc.Undo? ==> th.pc.fp < |s.count|)
         && s' == s.(threads := s.threads[t := th.(pc := Next(th, s.tables, s.count))], count := CountsAfter(th, s.count))
       case Call(t, fd) =>
         s' == s.(threads := s.threads[t := Thread(fd, if fd < |table| then LoadSlot(|s.tables| - 1) else BadRange)])
       case Return(t) =>
         s' == s.(threads := s.threads[t := s.threads[t].(pc := Ready)], others := s.others + One(s.threads[t].pc.Ref()))
       case Falloc(fp) => s' == s.(count := s.count[fp := 1], others := s.others + multiset{Open(fp)})
       case Install(fd, fp) => Raised(s.count, fp, s'.count) && s' == s.(tables := Stored(s.tables, fd, Open(fp)), count := s'.count)
       case Close(fd) => s' == s.(tables := Stored(s.tables, fd, Null), others := s.others + multiset{table[fd]})
       case Dup(from, to) =>
         && Raised(s.count, table[from].fp, s'.count)
         && s' == s.(tables := Stored(s.tables, to, table[from]), count := s'.count, others := s.others + One(table[to]))
       case Hold(fd) => Raised(s.count, table[fd].fp, s'.count) && s' == s.(count := s'.count, others := s.others + multiset{table[fd]})
       case Share(fp) => Raised(s.count, fp, s'.count) && s' == s.(count := s'.count, others := s.others + multiset{Open(fp)})
       case Drop(fp) => Lowered(s.count, fp, s'.count) && s' == s.(count := s'.count, others := s.others - multiset{Open(fp)})
       case Grow(nnfiles) => s' == s.(tables := Grown(s.tables, nnfiles))
  }

  class Process {
    /** All tables the process has had; the last one is fd_files. */
    var tables: Tables
    var count: seq<nat>
    var threads: seq<Thread>
    /** References owned by code outside fget_unlocked. */
    var others: multiset<Slot>
    /** For each thread, what its slot of the current table has held since the
        thread last read fd_files. */
    ghost var seen: seq<set<Slot>>

    ghost predicate Valid()
      reads this
    {
      && |tables| > 0 && |seen| == |threads|
      && Tabular(tables, |count|)
      && AllInformed(threads, seen, tables, |count|)
      && Counted(count, Owners(Current(tables), threads, others))
      && Null !in others
    }

    function Now(): State
      reads this
    {
      State(tables, count, threads, others)
    }

    function Table(): seq<Slot>
      requires |tables| > 0
      reads this
    {
      Current(tables)
    }

    /** A fresh process: `n` empty slots, every file object free. */
    constructor (n: nat, files: nat, callers: nat)
      ensures Valid() && Table() == seq(n, i => Null) && |count| == files && |threads| == callers
      ensures forall f :: 0 <= f < files ==> count[f] == 0
      ensures Recorded()
    {
      history, began := [seq(n, i => Null)], seq(callers, i => 0);
      tables := [seq(n, i => Null)];
      count := seq(files, i => 0);
      threads := seq(callers, i => Thread(0, Ready));
      others := multiset{};
      seen := seq(callers, i => {});
      new;
      forall s: Slot | s.Open?
        ensures s !in Owners(Table(), threads, others)
      {
        assert s !in Table() && s !in Refs(threads);
      }
    }

    // ---------------------------------------------------------------- with the table locked

    /** A store to a slot of the current table. */
    method Store(fd: nat, s: Slot)
      requires |tables| > 0 && |seen| == |threads|
      requires Tabular(tables, |count|) && AllInformed(threads, seen, tables, |count|)
      requires fd < |Table()| && SlotIn(s, |count|)
      modifies `tables, `seen
      ensures |tables| > 0 && |seen| == |threads|
      ensures Tabular(tables, |count|) && AllInformed(threads, seen, tables, |count|)
      ensures tables == Stored(old(tables), fd, s) && seen == Noted(old(seen), threads, Table())
      ensures Table() == old(Table())[fd := s]
    {
      hide Tabular, AllInformed, SlotIn;
      StoredTabular(tables, |count|, fd, s);
      StoredInformed(threads, seen, tables, |count|, fd, s);
      tables := Stored(tables, fd, s);
      seen := Noted(seen, threads, Table());
    }

    /** finstall: the table gets a reference of its own (fhold, _finstall). */
    method Install(fd: nat, fp: File)
      requires Valid() && fd < |Table()| && Table()[fd] == Null && Open(fp) in others
      modifies `tables, `seen, `count, `others
      ensures Valid() && tables == Stored(old(tables), fd, Open(fp)) && threads == old(threads) && others == old(others)
      ensures seen == Noted(old(seen), threads, Table())
      ensures Raised(old(count), fp, count)
    {
      hide Tabular, AllInformed, Owners, Counted;
      ghost var owners := Owners(Table(), threads, others);
      OwnersGiven(Table(), threads, others, Open(fp));
      OwnedFile(count, owners, Open(fp));
      OwnersStored(Table(), fd, Open(fp), threads, others);
      CountedMore(count, owners, Open(fp));
      assert owners - One(Null) == owners;
      count := count[fp := count[fp] + 1];
      Store(fd, Open(fp));
    }

    /** kern_close up to closefp: the slot's reference passes to the closer. */
    method Close(fd: nat)
      requires Valid() && fd < |Table()| && Table()[fd].Open?
      modifies `tables, `seen, `count, `others
      ensures Valid() && tables == Stored(old(tables), fd, Null) && threads == old(threads)
      ensures seen == Noted(old(seen), threads, Table())
      ensures count == old(count) && others == old(others) + multiset{old(Table()[fd])}
    {
      hide Tabular, AllInformed, Owners, Counted;
      ghost var owners, s := Owners(Table(), threads, others), Table()[fd];
      OwnersStored(Table(), fd, Null, threads, others);
      OwnersGiven(Table()[fd := Null], threads, others, s);
      assert owners - One(s) + One(Null) + One(s) == owners;
      var fp := Table()[fd];
      Store(fd, Null);
      others := others + multiset{fp};
    }

    /** kern_dup from line 899 on; a file that loses its slot passes to closefp. */
    method Dup(from: nat, to: nat)
      requires Valid() && from < |Table()| && to < |Table()| && from != to && Table()[from].Open?
      modifies `tables, `seen, `count, `others
      ensures Valid() && tables == Stored(old(tables), to, old(Table()[from])) && threads == old(threads)
      ensures Raised(old(count), old(Table()[from].fp), count)
      ensures others == old(others) + One(old(Table()[to]))
      ensures seen == Noted(old(seen), threads, Table())
    {
      hide Tabular, AllInformed, Owners, Counted;
      ghost var table, owners := Table(), Owners(Table(), threads, others);
      var fp, delfp := Table()[from].fp, Table()[to];
      OwnersStored(table, from, Null, threads, others);
      OwnedFile(count, owners, Open(fp));
      CountedMore(count, owners, Open(fp));
      OwnersStored(table, to, Open(fp), threads, others);
      count := count[fp := count[fp] + 1];
      Store(to, Open(fp));
      if delfp.Open? {
        OwnersGiven(Table(), threads, others, delfp);
        others := others + multiset{delfp};
      }
      assert Owners(Table(), threads, others) == owners + One(Open(fp));
    }

    /** A reference taken through the current table with the lock held. */
    method Hold(fd: nat)
      requires Valid() && fd < |Table()| && Table()[fd].Open?
      modifies `count, `others
      ensures Valid() && others == old(others) + multiset{Table()[fd]}
      ensures Raised(old(count), Table()[fd].fp, count)
    {
      hide Tabular, AllInformed, Owners, Counted;
      ghost var owners := Owners(Table(), threads, others);
      var fp := Table()[fd].fp;
      OwnersStored(Table(), fd, Null, threads, others);
      OwnedFile(count, owners, Open(fp));
      CountedMore(count, owners, Open(fp));
      OwnersGiven(Table(), threads, others, Open(fp));
      count := count[fp := count[fp] + 1];
      others := others + multiset{Open(fp)};
    }

    /** fdgrowtable: a larger copy becomes fd_files; the old table stays
        readable and is never written again. */
    method Grow(nnfiles: nat)
      requires Valid() && nnfiles >= |Table()|
      modifies `tables, `seen
      ensures Valid() && tables == Grown(old(tables), nnfiles) && seen == Noted(old(seen), threads, Table())
    {
      hide Tabular, AllInformed, Owners, Counted;
      GrownTabular(tables, |count|, nnfiles);
      GrownInformed(threads, seen, tables, |count|, nnfiles);
      GrownOwners(tables, nnfiles, threads, others);
      tables := Grown(tables, nnfiles);
      seen := Noted(seen, threads, Table());
    }

    // ---------------------------------------------------------------- without the table

    /** falloc_noinstall: a free object becomes a new file. */
    method Falloc(fp: File)
      requires Valid() && fp < |count| && count[fp] == 0
      modifies `count, `others
      ensures Valid() && count == old(count)[fp := 1] && others == old(others) + multiset{Open(fp)}
    {
      hide Tabular, AllInformed, Owners, Counted;
      CountedMore(count, Owners(Table(), threads, others), Open(fp));
      OwnersGiven(Table(), threads, others, Open(fp));
      count := count[fp := 1];
      others := others + multiset{Open(fp)};
    }

    /** fhold by an owner of a reference. */
    method Share(fp: File)
      requires Valid() && Open(fp) in others
      modifies `count, `others
      ensures Valid() && others == old(others) + multiset{Open(fp)}
      ensures Raised(old(count), fp, count)
    {
      hide Tabular, AllInformed, Owners, Counted;
      ghost var owners := Owners(Table(), threads, others);
      OwnersGiven(Table(), threads, others, Open(fp));
      OwnedFile(count, owners, Open(fp));
      CountedMore(count, owners, Open(fp));
      count := count[fp := count[fp] + 1];
      others := others + multiset{Open(fp)};
    }

    /** fdrop by an owner of a reference; _fdrop frees the file at zero. */
    method Drop(fp: File) returns (last: bool)
      requires Valid() && Open(fp) in others
      modifies `count, `others
      ensures Valid() && others == old(others) - multiset{Open(fp)}
      ensures Lowered(old(count), fp, count)
      ensures last <==> Open(fp) !in Owners(Table(), threads, others)
    {
      hide Tabular, AllInformed, Owners, Counted;
      ghost var owners := Owners(Table(), threads, others);
      OwnersGiven(Table(), threads, others, Open(fp));
      CountedLess(count, owners, Open(fp));
      count := count[fp := count[fp] - 1];
      others := others - multiset{Open(fp)};
      last := count[fp] == 0;
    }

    // ---------------------------------------------------------------- fget_unlocked

    /** The call: fd_files is read and the descriptor compared with its size. */
    method Call(t: nat, fd: nat)
      requires Valid() && t < |threads| && threads[t].pc == Ready
      modifies `threads, `seen
      ensures Valid()
      ensures threads == old(threads)[t := Thread(fd, if fd < |Table()| then LoadSlot(|tables| - 1) else BadRange)]
      ensures seen == old(seen)[t := At(Table(), fd)]
    {
      hide Tabular, Counted, Owners, AllInformed;
      SeenAnew(threads, seen, t, At(Table(), fd), tables, |count|);
      seen := seen[t := At(Table(), fd)];
      Move(t, Thread(fd, if fd < |Table()| then LoadSlot(|tables| - 1) else BadRange));
    }

    /** One thread goes on without touching a count. */
    method Move(t: nat, th: Thread)
      requires Valid() && t < |threads|
      requires Informed(th, seen[t], tables, |count|) && th.pc.Ref() == threads[t].pc.Ref()
      modifies `threads
      ensures Valid() && threads == old(threads)[t := th]
    {
      hide Tabular, AllInformed, Informed, Owners, Counted;
      InformedMove(threads, seen, t, th, tables, |count|);
      ghost var owners, s := Owners(Table(), threads, others), th.pc.Ref();
      OwnersMoved(Table(), threads, t, th, others);
      assert owners - One(s) + One(s) == owners;
      threads := threads[t := th];
    }

    /** fd_files is read anew (lines 2540 and 2549): what the thread may find
        in its slot from here on is what the slot holds from now on. */
    method Refresh(t: nat, pc: Pc)
      requires Valid() && t < |threads| && pc.Ref() == threads[t].pc.Ref()
      requires (threads[t].pc == Reload && pc == LoadSlot(|tables| - 1))
            || (threads[t].pc.Reread? && pc == Recheck(|tables| - 1, threads[t].pc.fp))
      modifies `threads, `seen
      ensures Valid() && threads == old(threads)[t := old(threads[t]).(pc := pc)]
      ensures seen == old(seen)[t := {Table()[threads[t].fd]}]
    {
      hide Tabular, Counted, Owners, AllInformed;
      InformedOf(threads, seen, t, tables, |count|);
      SeenAnew(threads, seen, t, At(Table(), threads[t].fd), tables, |count|);
      seen := seen[t := At(Table(), threads[t].fd)];
      Move(t, threads[t].(pc := pc));
    }

    /** The compare-and-set of line 2547: the only place where a lookup raises
        a count, and never from zero. */
    method TryHold(t: nat)
      requires Valid() && t < |threads| && threads[t].pc.CmpSet?
      modifies `threads, `count
      ensures Valid()
      ensures var pc := old(threads[t].pc);
              if old(count[pc.fp]) == pc.count
              then Raised(old(count), pc.fp, count) && threads == old(threads)[t := old(threads[t]).(pc := Reread(pc.fp))]
              else count == old(count) && threads == old(threads)[t := old(threads[t]).(pc := LoadCount(pc.fdt, pc.fp))]
    {
      hide Tabular, Counted, Owners, AllInformed;
      InformedOf(threads, seen, t, tables, |count|);
      var th := threads[t];
      if count[th.pc.fp] == th.pc.count {
        TakeReference(t, th.(pc := Reread(th.pc.fp)));
      } else {
        Move(t, th.(pc := LoadCount(th.pc.fdt, th.pc.fp)));
      }
    }

    /** The store of a compare-and-set that succeeds. */
    method TakeReference(t: nat, th: Thread)
      requires Valid() && t < |threads| && !threads[t].pc.Holds() && th.pc.Reread?
      requires Informed(th, seen[t], tables, |count|) && th.pc.fp < |count|
      modifies `threads, `count
      ensures Valid() && threads == old(threads)[t := th]
      ensures count == old(count)[th.pc.fp := old(count)[th.pc.fp] + 1]
    {
      hide Tabular, Counted, Owners, AllInformed, Informed;
      ghost var owners, s := Owners(Table(), threads, others), Open(th.pc.fp);
      InformedMove(threads, seen, t, th, tables, |count|);
      CountedMore(count, owners, s);
      OwnersMoved(Table(), threads, t, th, others);
      assert owners - One(Null) == owners;
      count := count[th.pc.fp := count[th.pc.fp] + 1];
      threads := threads[t := th];
    }

    /** fdrop after a failed check (line 2561). */
    method Abandon(t: nat)
      requires Valid() && t < |threads| && threads[t].pc.Undo?
      modifies `threads, `count
      ensures Valid() && Lowered(old(count), old(threads[t].pc.fp), count)
      ensures threads == old(threads)[t := old(threads[t]).(pc := LoadSlot(old(threads[t].pc.fdt)))]
    {
      hide Tabular, Counted, Owners, AllInformed;
      InformedOf(threads, seen, t, tables, |count|);
      var th := threads[t];
      InformedMove(threads, seen, t, th.(pc := LoadSlot(th.pc.fdt)), tables, |count|);
      ghost var owners, s := Owners(Table(), threads, others), Open(th.pc.fp);
      OwnersMoved(Table(), threads, t, th.(pc := LoadSlot(th.pc.fdt)), others);
      CountedLess(count, owners, s);
      assert owners - One(s) + One(Null) == owners - One(s);
      count := count[th.pc.fp := count[th.pc.fp] - 1];
      threads := threads[t := th.(pc := LoadSlot(th.pc.fdt))];
    }

    /** The next memory access of a call under way. */
    method Advance(t: nat)
      requires Valid() && t < |threads|
      modifies `threads, `count, `seen
      ensures Valid() && |threads| == old(|threads|) && threads[t].fd == old(threads[t].fd)
      ensures forall u :: 0 <= u < |threads| && u != t ==> threads[u] == old(threads[u])
      ensures Informed(old(threads)[t], old(seen)[t], old(tables), old(|count|))
      ensures threads[t].pc == Next(old(threads)[t], old(tables), old(count))
      ensures |count| == old(|count|) && count == CountsAfter(old(threads)[t], old(count))
      ensures NoneRevived(old(count), count)
      ensures seen == old(seen) || seen == old(seen)[t := At(Table(), threads[t].fd)]
      ensures threads[t].pc.Success? ==> var fp := threads[t].pc.fp;
              fp < |count| && count[fp] > 0 && Open(fp) in seen[t]
      ensures threads[t].pc == BadEntry ==> Null in seen[t]
    {
      hide Tabular, Counted, Owners, AllInformed;
      InformedOf(threads, seen, t, tables, |count|);
      var th := threads[t];
      match th.pc {
      case Ready =>
      case LoadSlot(fdt) =>
        var slot := tables[fdt][th.fd];
        LoadedSlot(tables, |count|, fdt, th.fd);
        Move(t, th.(pc := if slot.Open? then LoadCount(fdt, slot.fp) else BadEntry));
      case LoadCount(fdt, fp) =>
        Move(t, th.(pc := if count[fp] == 0 then Reload else CmpSet(fdt, fp, count[fp])));
      case Reload =>
        Refresh(t, LoadSlot(|tables| - 1));
      case CmpSet(_, _, _) =>
        TryHold(t);
      case Reread(fp) =>
        Refresh(t, Recheck(|tables| - 1, fp));
      case Recheck(fdt, fp) =>
        Move(t, th.(pc := if tables[fdt][th.fd] == Open(fp) then Success(fp) else Undo(fdt, fp)));
      case Undo(_, _) =>
        Abandon(t);
      case BadRange =>
      case BadEntry =>
      case Success(_) =>
      }
      ReferencedBy(t);
    }

    /** A reference in a thread's hands keeps the file alive. */
    lemma ReferencedBy(t: nat)
      requires Valid() && t < |threads|
      ensures threads[t].pc.Holds() ==> threads[t].pc.fp < |count| && count[threads[t].pc.fp] > 0
    {
      hide Tabular, AllInformed, Counted, Owners;
      OwnersMoved(Table(), threads, t, threads[t], others);
      if threads[t].pc.Holds() {
        OwnedFile(count, Owners(Table(), threads, others), threads[t].pc.Ref());
      }
    }

    /** The call returns; with a file, its reference passes to the caller. */
    method Return(t: nat) returns (r: Slot)
      requires Valid() && t < |threads|
      requires threads[t].pc.Done()
      modifies `threads, `others
      ensures Valid() && threads == old(threads)[t := old(threads[t]).(pc := Ready)]
      ensures r == old(threads[t].pc.Ref()) && others == old(others) + One(r)
      ensures r.Open? ==> r.fp < |count| && count[r.fp] > 0
      ensures old(threads[t].pc) != BadRange ==> r in seen[t]
    {
      hide Tabular, Counted, Owners, AllInformed;
      InformedOf(threads, seen, t, tables, |count|);
      var th := threads[t].(pc := Ready);
      InformedMove(threads, seen, t, th, tables, |count|);
      hide Informed;
      r := threads[t].pc.Ref();
      ReferencedBy(t);
      OwnersHanded(Table(), threads, t, th, others);
      threads, others := threads[t := th], others + One(r);
    }

    // ---------------------------------------------------------------- undisturbed calls

    lemma PlacedNow(t: nat)
      requires Valid() && t < |threads| && threads[t].pc != Ready
      ensures Placed(threads[t], tables, count)
    {
      hide AllInformed, Owners, Counted;
      InformedOf(threads, seen, t, tables, |count|);
      ReferencedBy(t);
      if threads[t].fd < |Table()| && Table()[threads[t].fd].Open? {
        OwnersStored(Table(), threads[t].fd, Null, threads, others);
        OwnedFile(count, Owners(Table(), threads, others), Table()[threads[t].fd]);
      }
    }

    /** One memory access, and nothing else in between. */
    method Hop(t: nat)
      requires Valid() && t < |threads| && Placed(threads[t], tables, count) && threads[t].pc != Ready
      modifies `threads, `count, `seen
      ensures Valid() && |threads| == old(|threads|) && Placed(threads[t], tables, count)
      ensures var th := old(threads[t]);
              threads == old(threads)[t := th.(pc := Next(th, tables, old(count)))] && count == CountsAfter(th, old(count))
    {
      hide Valid, Informed;
      ghost var th, was := threads[t], count;
      NextStays(th, tables, was);
      Advance(t);
      assert threads == old(threads)[t := th.(pc := threads[t].pc)];
      PlacedNow(t);
    }

    /** From the slot of the current table to the end. */
    method FromSlot(t: nat)
      requires Valid() && t < |threads| && Placed(threads[t], tables, count) && threads[t].pc == LoadSlot(|tables| - 1)
      modifies `threads, `count, `seen
      ensures Valid() && t < |threads| && threads[t].fd < |Table()|
      ensures var slot, th := Table()[old(threads[t]).fd], old(threads[t]);
              && threads == old(threads)[t := th.(pc := if slot.Open? then Success(slot.fp) else BadEntry)]
              && (if slot.Open? then Raised(old(count), slot.fp, count) else count == old(count))
    {
      hide Valid;
      Hop(t);
      if threads[t].pc.LoadCount? {
        Hop(t);
        Hop(t);
        Hop(t);
        Hop(t);
      }
    }

    /** From any point of a call, if no other action comes in between, it ends
        after at most 13 memory accesses: no look-up waits for another thread. */
    method FinishAlone(t: nat) returns (steps: nat)
      requires Valid() && t < |threads| && threads[t].pc != Ready
      modifies `threads, `count, `seen
      ensures Valid() && |threads| == old(|threads|) && threads[t].pc.Done() && steps <= 13
      ensures forall u :: 0 <= u < |threads| && u != t ==> threads[u] == old(threads[u])
    {
      hide Valid, Placed, Left, Informed;
      steps := 0;
      PlacedNow(t);
      ghost var most := Left(threads[t], tables, count);
      NotMore(threads[t], tables, count);
      while !threads[t].pc.Done()
        invariant Valid() && |threads| == old(|threads|) && threads[t].pc != Ready
        invariant forall u :: 0 <= u < |threads| && u != t ==> threads[u] == old(threads[u])
        invariant Placed(threads[t], tables, count) && steps + Left(threads[t], tables, count) <= most
        decreases Left(threads[t], tables, count)
      {
        ghost var th, was := threads[t], count;
        Hop(t);
        NextStays(th, tables, was);
        LeftLess(th, tables, was, threads[t]);
        steps := steps + 1;
      }
    }

    /** A call that nothing disturbs returns what is in the slot, with one more
        reference to it, or fails exactly if there is nothing. */
    method LookupAlone(t: nat, fd: nat) returns (r: Slot)
      requires Valid() && t < |threads| && threads[t].pc == Ready
      modifies `threads, `count, `seen, `others
      ensures Valid() && threads == old(threads)[t := Thread(fd, Ready)] && tables == old(tables)
      ensures r == if fd < |Table()| then Table()[fd] else Null
      ensures if r.Open? then Raised(old(count), r.fp, count) else count == old(count)
      ensures others == old(others) + One(r)
    {
      hide AllInformed, Tabular, Counted, Owners, Informed, Placed, Lowered, Noted;
      if fd < |Table()| {
        Call(t, fd);
        PlacedNow(t);
        FromSlot(t);
      } else {
        Call(t, fd);
      }
      r := Return(t);
      assert threads == old(threads)[t := Thread(fd, Ready)];
    }

    // ---------------------------------------------------------------- runs

    /** What the current table was after each action so far. */
    ghost var history: seq<seq<Slot>>
    /** For each thread, the moment its latest call began. */
    ghost var began: seq<nat>

    ghost predicate Recorded()
      reads this
    {
      && |tables| > 0 && |history| > 0 && history[|history| - 1] == Table()
      && |began| == |seen| == |threads|
      && (forall t :: 0 <= t < |threads| ==> began[t] <= |history|)
      && (forall t :: 0 <= t < |threads| && threads[t].pc == BadRange ==> began[t] < |history| && |history[began[t]]| <= threads[t].fd)
      && forall t :: 0 <= t < |threads| ==> Witnessed(history, began[t], threads[t].fd, seen[t])
    }

    predicate Enabled(a: Action)
      requires |tables| > 0
      reads this
    {
      Possible(a, Now())
    }

    /** One action of the rest of the kernel. */
    method Environment(a: Action)
      requires Valid() && Enabled(a) && !a.Advance? && !a.Call? && !a.Return?
      modifies `tables, `count, `others, `seen
      ensures Valid() && |count| == old(|count|) && (!a.Falloc? ==> NoneRevived(old(count), count))
      ensures seen == old(seen) || seen == Noted(old(seen), threads, Table())
      ensures Did(a, old(Now()), Now())
    {
      hide Tabular, Counted, Owners, AllInformed, Noted;
      match a
      case Falloc(fp) => Falloc(fp);
      case Install(fd, fp) => Install(fd, fp);
      case Close(fd) => Close(fd);
      case Dup(from, to) => Dup(from, to);
      case Hold(fd) => Hold(fd);
      case Share(fp) => Share(fp);
      case Drop(fp) => var last := Drop(fp);
      case Grow(nnfiles) => Grow(nnfiles);
    }

    /** One action of a call of fget_unlocked. */
    method Lookup(a: Action) returns (r: Slot)
      requires Valid() && Enabled(a) && (a.Advance? || a.Call? || a.Return?)
      modifies `threads, `count, `others, `seen
      ensures Valid() && |threads| == old(|threads|) && NoneRevived(old(count), count)
      ensures forall u :: 0 <= u < |threads| && u != a.t ==> threads[u] == old(threads[u])
      ensures seen == old(seen) || seen == old(seen)[a.t := At(Table(), threads[a.t].fd)]
      ensures if a.Call? then threads[a.t].fd == a.fd && seen == old(seen)[a.t := At(Table(), a.fd)]
              else threads[a.t].fd == old(threads[a.t].fd)
      ensures a.Return? ==> r == old(threads[a.t].pc.Ref()) && (r.Open? ==> r.fp < |count| && count[r.fp] > 0)
      ensures a.Return? && old(threads[a.t].pc) != BadRange ==> r in seen[a.t]
      ensures threads[a.t].pc == BadRange ==> if a.Call? then |Table()| <= a.fd else old(threads[a.t].pc) == BadRange
      ensures Did(a, old(Now()), Now())
    {
      hide Tabular, Counted, Owners, AllInformed;
      r := Null;
      match a
      case Advance(t) =>
        ghost var th := threads[t];
        Advance(t);
        assert threads == old(threads)[t := th.(pc := threads[t].pc)];
      case Call(t, fd) => Call(t, fd);
      case Return(t) => r := Return(t);
    }

    /** One action, recorded. A call returns a file only if the file was in the
        slot of the current table at some moment of the call, and live at the
        end; it returns none only if at some moment the slot was empty or beyond
        the end of the table. */
    method Step(a: Action) returns (r: Slot)
      requires Valid() && Recorded() && Enabled(a)
      modifies this
      ensures Valid() && Recorded() && |threads| == old(|threads|)
      ensures history == old(history) + [Table()]
      ensures !a.Falloc? ==> NoneRevived(old(count), count)
      ensures Did(a, old(Now()), Now())
      ensures a.Return? && r.Open? ==> InSlotDuring(history, began[a.t], threads[a.t].fd, r)
      ensures a.Return? && r == Null ==> AbsentDuring(history, began[a.t], threads[a.t].fd)
      ensures a.Return? ==> r == old(threads[a.t].pc.Ref()) && (r.Open? ==> r.fp < |count| && count[r.fp] > 0)
      ensures a.Return? ==> began == old(began)
      ensures a.Call? ==> began == old(began)[a.t := old(|history|)]
    {
      hide Tabular, Counted, Owners, AllInformed, Informed, NoneRevived, Did, Noted;
      if a.Advance? || a.Call? || a.Return? {
        r := Lookup(a);
      } else {
        r := Null;
        Environment(a);
      }
      history := history + [Table()];
      if a.Call? {
        began := began[a.t := |history| - 1];
      }
      forall t | 0 <= t < |threads|
        ensures Witnessed(history, began[t], threads[t].fd, seen[t])
      {
        if a.Call? && a.t == t {
          WitnessedNow(old(history), Table(), |history| - 1, threads[t].fd, {}, seen[t]);
        } else {
          WitnessedNow(old(history), Table(), began[t], threads[t].fd, old(seen[t]), seen[t]);
        }
      }
      if a.Return? && r == Null {
        if old(threads[a.t].pc) == BadRange {
          assert history[began[a.t]] == old(history)[began[a.t]];
        } else {
          assert InSlotDuring(history, began[a.t], threads[a.t].fd, Null);
        }
      }
    }

    /** Any interleaving whatever of lookups, installs, closes, duplications,
        growth and recycling; an action not enabled at its turn is left out, and
        `log` says what every action did. A file that a call returned was live
        then, and in its slot at some moment of the call; a call returned none
        only if there was none at some moment; no count rose from zero but by an
        allocation. */
    method Run(actions: seq<Action>) returns (ghost log: seq<Event>)
      requires Valid() && Recorded()
      modifies this
      ensures Valid() && Recorded() && old(history) <= history
      ensures |log| == |actions| && forall i :: 0 <= i < |log| ==> log[i].a == actions[i]
      ensures Linked(log, old(Now()), Now())
      ensures forall e :: e in log ==> EventRight(history, e)
    {
      hide Tabular, Counted, Owners, AllInformed, Informed, NoneRevived, InSlotDuring, EventRight, Recorded, Valid;
      var i := 0;
      log := [];
      while i < |actions|
        invariant 0 <= i <= |actions|
        invariant Valid() && Recorded() && old(history) <= history
        invariant |log| == i && forall j :: 0 <= j < i ==> log[j].a == actions[j]
        invariant Linked(log, old(Now()), Now())
        invariant forall e :: e in log ==> EventRight(history, e)
      {
        ghost var e := Record(actions[i]);
        log := log + [e];
        i := i + 1;
      }
    }

    /** One action, if it can happen, and what it did. */
    method Record(a: Action) returns (ghost e: Event)
      requires Valid() && Recorded()
      modifies this
      ensures Valid() && Recorded() && old(history) <= history
      ensures e.a == a && e.before == old(Now()) && e.after == Now() && EventRight(history, e)
      ensures forall d :: EventRight(old(history), d) ==> EventRight(history, d)
    {
      hide Tabular, Counted, Owners, AllInformed, Informed, NoneRevived, Did;
      if !Enabled(a) {
        e := Event(a, 0, 0, 0, Null, Now(), Now());
        return;
      }
      ghost var before, past := Now(), history;
      var r := Step(a);
      e := if a.Return? then Event(a, threads[a.t].fd, began[a.t], |history|, r, before, Now()) else Event(a, 0, 0, 0, Null, before, Now());
      assert history[..|history|] == history;
      forall d | EventRight(past, d) ensures EventRight(history, d) {
        assert d.until <= |past| && history[..d.until] == past[..d.until];
      }
    }
  }

  /** An action of a run, with the states around it; for a return also its slot,
      the moments between which the call ran, and its result. */
  datatype Event = Event(a: Action, fd: nat, since: nat, until: nat, r: Slot, before: State, after: State)

  ghost predicate EventRight(history: seq<seq<Slot>>, e: Event) {
    && e.until <= |history| && |e.before.tables| > 0
    && if !Possible(e.a, e.before) then e.after == e.before
       else
         && Did(e.a, e.before, e.after)
         && (!e.a.Falloc? ==> NoneRevived(e.before.count, e.after.count))
         && (e.a.Return? ==>
               && e.r == e.before.threads[e.a.t].pc.Ref()
               && if e.r.Open? then
                    InSlotDuring(history[..e.until], e.since, e.fd, e.r)
                    && e.r.fp < |e.after.count| && e.after.count[e.r.fp] > 0
                  else AbsentDuring(history[..e.until], e.since, e.fd))
  }

  /** Each action starts from the state the one before it left. */
  ghost predicate Linked(log: seq<Event>, first: State, last: State) {
    if log == [] then first == last
    else Linked(log[..|log| - 1], first, log[|log| - 1].before) && log[|log| - 1].after == last
  }

  /** No count has risen from zero. */
  predicate NoneRevived(before: seq<nat>, after: seq<nat>) {
    |after| == |before| && forall f :: 0 <= f < |before| && before[f] == 0 ==> after[f] == 0
  }

  /** `s` was in slot `fd` of the current table at a moment from `since` on. */
  ghost predicate InSlotDuring(history: seq<seq<Slot>>, since: nat, fd: nat, s: Slot) {
    exists k :: since <= k < |history| && fd < |history[k]| && history[k][fd] == s
  }

  /** There was no file in slot `fd` of the current table at a moment from
      `since` on. */
  ghost predicate AbsentDuring(history: seq<seq<Slot>>, since: nat, fd: nat) {
    exists k :: since <= k < |history| && (fd < |history[k]| ==> history[k][fd] == Null)
  }

  ghost predicate Witnessed(history: seq<seq<Slot>>, since: nat, fd: nat, seen: set<Slot>) {
    forall s :: s in seen ==> InSlotDuring(history, since, fd, s)
  }

  lemma WitnessedNow(history: seq<seq<Slot>>, table: seq<Slot>, since: nat, fd: nat, was: set<Slot>, now: set<Slot>)
    requires Witnessed(history, since, fd, was) && since <= |history|
    requires now <= was + At(table, fd)
    ensures Witnessed(history + [table], since, fd, now)
  {
    var h := history + [table];
    forall s | s in now
      ensures InSlotDuring(h, since, fd, s)
    {
      if s in was {
        var k :| since <= k < |history| && fd < |history[k]| && history[k][fd] == s;
        assert h[k][fd] == s;
      } else {
        assert h[|history|][fd] == s;
      }
    }
  }

  lemma LoadedSlot(tables: Tables, files: nat, i: nat, fd: nat)
    requires Tabular(tables, files) && i < |tables| && fd < |tables[i]|
    ensures SlotIn(tables[i][fd], files)
  {
  }
}
