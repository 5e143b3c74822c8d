/** The boot loop of init_main.c: sort the registered tasks, run them in order,
    and start over as soon as a task has registered more. A task is named by a
    number below `count`, its address. */
module Sysinit {

  const SI_SUB_DUMMY: nat := 0
  const SI_SUB_DONE: nat := 1

  /** What a task is at build time: its place in the order, and the sets of
      tasks it hands to sysinit_add when it runs. */
  datatype Task = Task(subsystem: nat, order: nat, adds: seq<seq<nat>>)

  /** Known tasks register known tasks only. */
  ghost predicate Closed(tasks: seq<Task>) {
    forall t, i :: 0 <= t < |tasks| && 0 <= i < |tasks[t].adds| ==> Within(tasks[t].adds[i], |tasks|)
  }

  predicate Within(s: seq<nat>, n: nat) {
    forall i :: 0 <= i < |s| ==> s[i] < n
  }

  predicate Runnable(task: Task) {
    task.subsystem != SI_SUB_DUMMY && task.subsystem != SI_SUB_DONE
  }

  predicate NotAfter(s: nat, o: nat, s': nat, o': nat) {
    s < s' || (s == s' && o <= o')
  }

  // ---------------------------------------------------------------- what a boot should be

  ghost function Elems(s: seq<nat>): set<nat> {
    set x | x in s
  }

  ghost function Union(sets: seq<seq<nat>>): set<nat> {
    if sets == [] then {} else Union(sets[..|sets| - 1]) + Elems(sets[|sets| - 1])
  }

  /** The tasks registered once those of `ran` have run. */
  ghost function Registered(tasks: seq<Task>, first: seq<nat>, ran: seq<nat>): set<nat>
    requires Within(ran, |tasks|)
  {
    if ran == [] then Elems(first)
    else Registered(tasks, first, ran[..|ran| - 1]) + Union(tasks[ran[|ran| - 1]].adds)
  }

  /** `t` may run next: it is registered, has not run, and no registered task
      that has not run comes before it. */
  ghost predicate MayRun(tasks: seq<Task>, first: seq<nat>, ran: seq<nat>, t: nat)
    requires Within(ran, |tasks|)
  {
    && t < |tasks| && t in Registered(tasks, first, ran) && t !in ran && Runnable(tasks[t])
    && forall u :: u in Registered(tasks, first, ran) && u < |tasks| && u !in ran && Runnable(tasks[u]) ==>
         NotAfter(tasks[t].subsystem, tasks[t].order, tasks[u].subsystem, tasks[u].order)
  }

  ghost predicate InOrder(tasks: seq<Task>, first: seq<nat>, ran: seq<nat>)
    requires Within(ran, |tasks|)
  {
    forall k :: 0 <= k < |ran| ==> MayRun(tasks, first, ran[..k], ran[k])
  }

  /** Nothing is left to run. */
  ghost predicate Complete(tasks: seq<Task>, first: seq<nat>, ran: seq<nat>)
    requires Within(ran, |tasks|)
  {
    forall u :: u in Registered(tasks, first, ran) && u < |tasks| && Runnable(tasks[u]) ==> u in ran
  }

  lemma IsTask(tasks: seq<Task>, first: seq<nat>, ran: seq<nat>, t: nat)
    requires Within(ran, |tasks|) && MayRun(tasks, first, ran, t)
    ensures t < |tasks|
  {
  }

  lemma InOrderMore(tasks: seq<Task>, first: seq<nat>, ran: seq<nat>, t: nat)
    requires Within(ran, |tasks|) && InOrder(tasks, first, ran) && MayRun(tasks, first, ran, t)
    ensures Within(ran + [t], |tasks|) && InOrder(tasks, first, ran + [t])
  {
    hide MayRun;
    var more := ran + [t];
    IsTask(tasks, first, ran, t);
    forall k | 0 <= k < |more|
      ensures MayRun(tasks, first, more[..k], more[k])
    {
      assert more[..k] == if k < |ran| then ran[..k] else ran;
    }
  }

  lemma RegisteredMore(tasks: seq<Task>, first: seq<nat>, ran: seq<nat>, t: nat)
    requires Within(ran, |tasks|) && t < |tasks|
    ensures Within(ran + [t], |tasks|)
    ensures Registered(tasks, first, ran + [t]) == Registered(tasks, first, ran) + Union(tasks[t].adds)
  {
    assert (ran + [t])[..|ran|] == ran;
  }

  /** No task runs twice. */
  lemma RunOnce(tasks: seq<Task>, first: seq<nat>, ran: seq<nat>, i: nat, j: nat)
    requires Within(ran, |tasks|) && InOrder(tasks, first, ran) && i < j < |ran|
    ensures ran[i] != ran[j]
  {
    assert MayRun(tasks, first, ran[..j], ran[j]);
    assert ran[..j][i] == ran[i];
  }

  lemma {:induction false} RegisteredFirst(tasks: seq<Task>, first: seq<nat>, ran: seq<nat>)
    requires Within(ran, |tasks|)
    ensures Elems(first) <= Registered(tasks, first, ran)
  {
    if ran != [] {
      RegisteredFirst(tasks, first, ran[..|ran| - 1]);
    }
  }

  /** Of two tasks the one with the smaller subsystem, or in the same subsystem
      the smaller order, runs first if it is registered when the other runs. */
  lemma RunsBefore(tasks: seq<Task>, first: seq<nat>, ran: seq<nat>, t: nat, j: nat)
    requires Within(ran, |tasks|) && InOrder(tasks, first, ran) && j < |ran| && t < |tasks| && Runnable(tasks[t])
    requires t in Registered(tasks, first, ran[..j])
    requires tasks[t].subsystem < tasks[ran[j]].subsystem
          || (tasks[t].subsystem == tasks[ran[j]].subsystem && tasks[t].order < tasks[ran[j]].order)
    ensures t in ran[..j]
  {
    assert MayRun(tasks, first, ran[..j], ran[j]);
  }

  /** So any two tasks registered at the start run by subsystem, then by order. */
  lemma RunsInOrder(tasks: seq<Task>, first: seq<nat>, ran: seq<nat>, i: nat, j: nat)
    requires Within(ran, |tasks|) && InOrder(tasks, first, ran) && i < |ran| && j < |ran| && ran[i] in first
    requires tasks[ran[i]].subsystem < tasks[ran[j]].subsystem
          || (tasks[ran[i]].subsystem == tasks[ran[j]].subsystem && tasks[ran[i]].order < tasks[ran[j]].order)
    ensures i < j
  {
    hide Registered;
    assert MayRun(tasks, first, ran[..i], ran[i]);
    RegisteredFirst(tasks, first, ran[..j]);
    RunsBefore(tasks, first, ran, ran[i], j);
    var k :| 0 <= k < j && ran[..j][k] == ran[i];
    if i < k {
      RunOnce(tasks, first, ran, i, k);
    } else if k < i {
      RunOnce(tasks, first, ran, k, i);
    }
  }

  // ---------------------------------------------------------------- the program

  class Boot {
    const tasks: seq<Task>
    /** The `subsystem` fields, the only ones that change. */
    var subsystem: array<nat>
    var sysinit: array<nat>
    var newsysinit: array?<nat>

    ghost predicate Shaped()
      reads this, subsystem, sysinit, newsysinit
    {
      && Closed(tasks) && subsystem.Length == |tasks|
      && subsystem != sysinit && subsystem != newsysinit && sysinit != newsysinit
      && Within(sysinit[..], |tasks|) && (newsysinit != null ==> Within(newsysinit[..], |tasks|))
    }

    constructor (ts: seq<Task>, first: seq<nat>)
      requires Closed(ts) && Within(first, |ts|)
      ensures Shaped() && tasks == ts && newsysinit == null && sysinit[..] == first
      ensures fresh(sysinit) && fresh(subsystem)
      ensures forall t :: 0 <= t < |ts| ==> subsystem[t] == ts[t].subsystem
    {
      tasks := ts;
      subsystem := new nat[|ts|](i requires 0 <= i < |ts| => ts[i].subsystem);
      sysinit := new nat[|first|](i requires 0 <= i < |first| => first[i]);
      newsysinit := null;
    }

    /** sysinit_add: the tasks known so far and those of the set. */
    method Add(set_: seq<nat>)
      requires Shaped() && Within(set_, |tasks|)
      modifies `newsysinit
      ensures Shaped() && newsysinit != null && fresh(newsysinit)
      ensures newsysinit[..] == (if old(newsysinit) != null then old(newsysinit)[..] else sysinit[..]) + set_
    {
      var from: array<nat> := if newsysinit != null then newsysinit else sysinit;
      var count := |set_| + from.Length;
      var newset := new nat[count];
      var x := 0;
      while x < from.Length
        invariant 0 <= x <= from.Length && newset[..x] == from[..x]
      {
        newset[x] := from[x];
        x := x + 1;
      }
      while x < count
        invariant from.Length <= x <= count && newset[..x] == from[..] + set_[..x - from.Length]
      {
        newset[x] := set_[x - from.Length];
        x := x + 1;
      }
      assert newset[..] == from[..] + set_;
      WithinJoin(from[..], set_, |tasks|);
      newsysinit := newset;
    }

    /** Lines 229-239: the exchange sort, in place. */
    method Sort()
      requires Shaped()
      modifies sysinit
      ensures Shaped() && Ordered(subsystem[..], tasks, sysinit[..], sysinit.Length)
      ensures multiset(sysinit[..]) == multiset(old(sysinit[..]))
    {
      hide Closed, NotAfter, Ordered, Least, Le;
      NoneOrdered(subsystem[..], tasks, sysinit[..]);
      var s: nat := 0;
      while s < sysinit.Length
        invariant s <= sysinit.Length && Within(sysinit[..], |tasks|) && Ordered(subsystem[..], tasks, sysinit[..], s)
        invariant multiset(sysinit[..]) == multiset(old(sysinit[..]))
      {
        NoneLeast(subsystem[..], tasks, sysinit[..], s);
        var x: nat := s + 1;
        while x < sysinit.Length
          invariant s < x <= sysinit.Length && Within(sysinit[..], |tasks|) && Ordered(subsystem[..], tasks, sysinit[..], s)
          invariant multiset(sysinit[..]) == multiset(old(sysinit[..]))
          invariant Least(subsystem[..], tasks, sysinit[..], s, x)
        {
          Compare(s, x);
          x := x + 1;
        }
        FoundLeast(subsystem[..], tasks, sysinit[..], s);
        s := s + 1;
      }
    }

    /** Lines 231-237. */
    method Compare(s: nat, x: nat)
      requires subsystem.Length == |tasks| && subsystem != sysinit && Within(sysinit[..], |tasks|)
      requires s < x < sysinit.Length && Ordered(subsystem[..], tasks, sysinit[..], s)
      requires Least(subsystem[..], tasks, sysinit[..], s, x)
      modifies sysinit
      ensures Within(sysinit[..], |tasks|) && Ordered(subsystem[..], tasks, sysinit[..], s)
      ensures Least(subsystem[..], tasks, sysinit[..], s, x + 1)
      ensures multiset(sysinit[..]) == multiset(old(sysinit[..]))
    {
      hide Closed, NotAfter, Ordered, Least, Le;
      var t, u := sysinit[..][s], sysinit[..][x];
      Compared(subsystem[..], tasks, sysinit[..], s, x);
      if !NotAfter(subsystem[t], tasks[t].order, subsystem[u], tasks[u].order) {
        ghost var was := sysinit[..];
        Exchanged(was, s, x);
        sysinit[s] := u;
        sysinit[x] := t;
        assert sysinit[..] == was[s := u][x := t];
      }
    }

    /** The `subsystem` fields say which tasks have run. */
    ghost predicate Marked(ran: seq<nat>)
      requires subsystem.Length == |tasks|
      reads this, subsystem
    {
      forall t: nat :: t < |tasks| ==> subsystem[t] == if t in ran then SI_SUB_DONE else tasks[t].subsystem
    }

    /** The task's function: it registers its sets. */
    method Call(t: nat)
      requires Shaped() && t < |tasks| && newsysinit == null
      modifies `newsysinit
      ensures Shaped() && (newsysinit == null <==> tasks[t].adds == []) && (newsysinit != null ==> fresh(newsysinit))
      ensures newsysinit != null ==> Elems(newsysinit[..]) == Elems(sysinit[..]) + Union(tasks[t].adds)
    {
      hide Elems, Union;
      var i := 0;
      var adds := tasks[t].adds;
      NoUnion();
      while i < |adds|
        invariant 0 <= i <= |adds| && Shaped() && (newsysinit == null <==> i == 0)
        invariant newsysinit != null ==> fresh(newsysinit)
        invariant newsysinit != null ==> Elems(newsysinit[..]) == Elems(sysinit[..]) + Union(adds[..i])
      {
        ghost var known := if newsysinit != null then newsysinit[..] else sysinit[..];
        Add(adds[i]);
        ElemsJoin(known, adds[i]);
        UnionMore(adds, i);
        i := i + 1;
      }
      assert adds[..i] == adds;
    }

    /** mi_startup. Whatever the tasks register, they run each at most once,
        always a least one of those registered and not yet run, until none is
        left. */
    method MiStartup() returns (ghost ran: seq<nat>)
      requires Shaped() && newsysinit == null && Marked([])
      modifies this, subsystem, sysinit
      ensures Within(ran, |tasks|) && InOrder(tasks, old(sysinit[..]), ran) && Complete(tasks, old(sysinit[..]), ran)
    {
      hide InOrder, MayRun, Registered, Elems, Ordered, Closed;
      ghost var first := sysinit[..];
      ran := [];
      NothingRan(tasks, first);
      var restart := true;
      while restart
        invariant Shaped() && newsysinit == null && Within(ran, |tasks|) && Marked(ran)
        invariant InOrder(tasks, first, ran) && Elems(sysinit[..]) == Registered(tasks, first, ran)
        invariant !restart ==> Complete(tasks, first, ran)
        invariant subsystem == old(subsystem) && (sysinit == old(sysinit) || fresh(sysinit))
        decreases |Left(tasks, ran)|, restart
      {
        restart := false;
        ghost var before := sysinit[..];
        Sort();
        SameElems(before, sysinit[..]);
        ghost var keys, ran0 := subsystem[..], ran;
        var s: nat := 0;
        while s < sysinit.Length && !restart
          invariant Shaped() && newsysinit == null && Within(ran, |tasks|) && Marked(ran)
          invariant InOrder(tasks, first, ran) && Elems(sysinit[..]) == Registered(tasks, first, ran)
          invariant subsystem == old(subsystem) && (sysinit == old(sysinit) || fresh(sysinit))
          invariant |Left(tasks, ran)| <= |Left(tasks, ran0)| && (restart ==> |Left(tasks, ran)| < |Left(tasks, ran0)|)
          invariant !restart ==> s <= sysinit.Length && Passed(tasks, sysinit[..], s, ran)
          invariant !restart ==> Ordered(keys, tasks, sysinit[..], sysinit.Length)
          invariant ran0 <= ran && |keys| == |tasks|
          invariant forall t: nat :: t < |tasks| ==> keys[t] == if t in ran0 then SI_SUB_DONE else tasks[t].subsystem
          decreases |Left(tasks, ran)|, sysinit.Length - s
        {
          var t := sysinit[..][s];
          if subsystem[t] == SI_SUB_DUMMY || subsystem[t] == SI_SUB_DONE {
            s := s + 1;
            continue;
          }
          NextMayRun(tasks, first, ran0, ran, keys, sysinit[..], s);
          InOrderMore(tasks, first, ran, t);
          RegisteredMore(tasks, first, ran, t);
          LeftLess(tasks, ran, t);
          Call(t);
          subsystem[t] := SI_SUB_DONE;
          ran := ran + [t];
          if newsysinit != null {
            sysinit := newsysinit;
            newsysinit := null;
            restart := true;
          } else {
            NoUnion();
            s := s + 1;
          }
        }
        if !restart {
          AllPassed(tasks, first, sysinit[..], ran);
        }
      }
    }
  }

  // ---------------------------------------------------------------- the sort

  predicate Le(keys: seq<nat>, tasks: seq<Task>, t: nat, u: nat)
    requires |keys| == |tasks| && t < |tasks| && u < |tasks|
  {
    NotAfter(keys[t], tasks[t].order, keys[u], tasks[u].order)
  }

  /** The first `n` are in place: none comes after any that follows it. */
  ghost predicate Ordered(keys: seq<nat>, tasks: seq<Task>, a: seq<nat>, n: nat)
    requires |keys| == |tasks| && Within(a, |tasks|) && n <= |a|
  {
    forall i, j :: 0 <= i < n && i < j < |a| ==> Le(keys, tasks, a[i], a[j])
  }

  ghost predicate Least(keys: seq<nat>, tasks: seq<Task>, a: seq<nat>, s: nat, x: nat)
    requires |keys| == |tasks| && Within(a, |tasks|) && s < x <= |a|
  {
    forall j :: s < j < x ==> Le(keys, tasks, a[s], a[j])
  }

  lemma WithinJoin(a: seq<nat>, b: seq<nat>, n: nat)
    requires Within(a, n) && Within(b, n)
    ensures Within(a + b, n)
  {
  }

  lemma NoUnion()
    ensures Union([]) == {}
  {
  }

  lemma UnionMore(sets: seq<seq<nat>>, i: nat)
    requires i < |sets|
    ensures Union(sets[..i + 1]) == Union(sets[..i]) + Elems(sets[i])
  {
    assert sets[..i + 1][..i] == sets[..i];
  }

  lemma ElemsJoin(a: seq<nat>, b: seq<nat>)
    ensures Elems(a + b) == Elems(a) + Elems(b)
  {
    assert forall x :: x in a + b <==> x in a || x in b;
  }

  lemma SameElems(a: seq<nat>, b: seq<nat>)
    requires multiset(a) == multiset(b)
    ensures Elems(a) == Elems(b)
  {
    assert forall x :: x in a <==> x in multiset(a);
    assert forall x :: x in b <==> x in multiset(b);
  }

  lemma NothingRan(tasks: seq<Task>, first: seq<nat>)
    ensures InOrder(tasks, first, []) && Registered(tasks, first, []) == Elems(first)
  {
  }

  ghost function Left(tasks: seq<Task>, ran: seq<nat>): set<nat> {
    set t: nat | t < |tasks| && t !in ran
  }

  lemma LeftLess(tasks: seq<Task>, ran: seq<nat>, t: nat)
    requires t < |tasks| && t !in ran
    ensures |Left(tasks, ran + [t])| < |Left(tasks, ran)|
  {
    assert Left(tasks, ran + [t]) == Left(tasks, ran) - {t};
  }

  /** The first `s` tasks of the table have run or never will. */
  ghost predicate Passed(tasks: seq<Task>, a: seq<nat>, s: nat, ran: seq<nat>)
    requires Within(a, |tasks|) && s <= |a|
  {
    forall j :: 0 <= j < s ==> a[j] in ran || !Runnable(tasks[a[j]])
  }

  /** In the sorted table the first task that can run is the one to run. */
  lemma NextMayRun(tasks: seq<Task>, first: seq<nat>, ran0: seq<nat>, ran: seq<nat>, keys: seq<nat>, a: seq<nat>, s: nat)
    requires Within(ran, |tasks|) && Within(a, |tasks|) && s < |a| && |keys| == |tasks|
    requires Elems(a) == Registered(tasks, first, ran) && Passed(tasks, a, s, ran) && ran0 <= ran
    requires Ordered(keys, tasks, a, |a|) && a[s] !in ran && Runnable(tasks[a[s]])
    requires forall t: nat :: t < |tasks| ==> keys[t] == if t in ran0 then SI_SUB_DONE else tasks[t].subsystem
    ensures MayRun(tasks, first, ran, a[s])
  {
    hide Registered;
    forall u | u in Registered(tasks, first, ran) && u < |tasks| && u !in ran && Runnable(tasks[u])
      ensures NotAfter(tasks[a[s]].subsystem, tasks[a[s]].order, tasks[u].subsystem, tasks[u].order)
    {
      var j :| 0 <= j < |a| && a[j] == u;
      assert s < j ==> Le(keys, tasks, a[s], a[j]);
    }
  }

  lemma AllPassed(tasks: seq<Task>, first: seq<nat>, a: seq<nat>, ran: seq<nat>)
    requires Within(ran, |tasks|) && Within(a, |tasks|) && Passed(tasks, a, |a|, ran)
    requires Elems(a) == Registered(tasks, first, ran)
    ensures Complete(tasks, first, ran)
  {
    hide Registered;
  }

  lemma Exchanged(a: seq<nat>, s: nat, x: nat)
    requires s < x < |a|
    ensures multiset(a[s := a[x]][x := a[s]]) == multiset(a)
  {
  }

  lemma NoneOrdered(keys: seq<nat>, tasks: seq<Task>, a: seq<nat>)
    requires |keys| == |tasks| && Within(a, |tasks|)
    ensures Ordered(keys, tasks, a, 0)
  {
  }

  lemma NoneLeast(keys: seq<nat>, tasks: seq<Task>, a: seq<nat>, s: nat)
    requires |keys| == |tasks| && Within(a, |tasks|) && s < |a|
    ensures Least(keys, tasks, a, s, s + 1)
  {
  }

  lemma FoundLeast(keys: seq<nat>, tasks: seq<Task>, a: seq<nat>, s: nat)
    requires |keys| == |tasks| && Within(a, |tasks|) && s < |a|
    requires Ordered(keys, tasks, a, s) && Least(keys, tasks, a, s, |a|)
    ensures Ordered(keys, tasks, a, s + 1)
  {
  }

  /** One comparison, with the exchange if there is one. */
  lemma Compared(keys: seq<nat>, tasks: seq<Task>, a: seq<nat>, s: nat, x: nat)
    requires |keys| == |tasks| && Within(a, |tasks|) && s < x < |a|
    requires Ordered(keys, tasks, a, s) && Least(keys, tasks, a, s, x)
    ensures var b := if NotAfter(keys[a[s]], tasks[a[s]].order, keys[a[x]], tasks[a[x]].order) then a else a[s := a[x]][x := a[s]];
            Within(b, |tasks|) && Ordered(keys, tasks, b, s) && Least(keys, tasks, b, s, x + 1)
  {
    var b := a[s := a[x]][x := a[s]];
    if !Le(keys, tasks, a[s], a[x]) {
      forall i, j | 0 <= i < s && i < j < |b|
        ensures Le(keys, tasks, b[i], b[j])
      {
        assert b[i] == a[i] && b[j] == a[if j == s then x else if j == x then s else j];
      }
      forall j | s < j < x + 1
        ensures Le(keys, tasks, b[s], b[j])
      {
        assert j < x ==> Le(keys, tasks, a[s], a[j]);
      }
    }
  }
}
