/** hardclock_cnt of kern_clock.c on any number of CPUs: the compare-and-set
    loop on the shared tick counter, and the watchdog. Integers are 32 bits
    wide and wrap. */
module Hardclock {

  const TWO_31: int := 0x8000_0000
  const TWO_32: int := 0x1_0000_0000

  predicate IsInt(x: int) {
    -0x8000_0000 <= x < 0x8000_0000
  }

  /** The int that agrees with `x` modulo 2^32. */
  function Wrap(x: int): (r: int)
    ensures IsInt(r) && (IsInt(x) ==> r == x)
  {
    (x + 0x8000_0000) % 0x1_0000_0000 - 0x8000_0000
  }

  lemma WrapPlus(x: int, y: int)
    ensures Wrap(Wrap(x) + y) == Wrap(x + y)
  {
  }

  lemma WrapMinus(x: int, y: int)
    ensures Wrap(Wrap(x) - y) == Wrap(x - y)
  {
  }

  /** What a successful compare-and-set stores is the old value plus newticks. */
  lemma Advanced(t: int, global: int)
    requires IsInt(t) && IsInt(global)
    ensures Wrap(global + Wrap(t - global)) == t
  {
  }

  /** Where a CPU is in hardclock_cnt, with its locals `global` and `newticks`. */
  datatype Pc = Idle | Load | Cas(global: int, newticks: int) | Duty(newticks: int)

  /** One memory access of a CPU, or another event. */
  datatype Action = Tick(cpu: nat, cnt: nat) | Step(cpu: nat) | Sync(cpu: nat) | Arm(n: nat) | Disarm

  /** All there is at one moment. */
  datatype State = State(ticks: int, t: seq<int>, pc: seq<Pc>, watchdogTicks: int, watchdogEnabled: bool,
                         won: nat, counted: nat, armed: nat, fired: nat)

  /** What an action makes of it; one that cannot happen makes nothing. */
  ghost predicate Did(a: Action, s: State, s': State)
    requires |s.pc| == |s.t|
  {
    match a
    case Tick(cpu, cnt) =>
      if cpu < |s.t| && s.pc[cpu] == Idle then s' == s.(t := s.t[cpu := Wrap(s.t[cpu] + cnt)], pc := s.pc[cpu := Load]) else s' == s
    case Step(cpu) => if cpu < |s.t| then Stepped(cpu, s, s') else s' == s
    case Sync(cpu) => if cpu < |s.t| && s.pc[cpu] == Idle then s' == s.(t := s.t[cpu := s.ticks]) else s' == s
    case Arm(n) =>
      if 0 < n < TWO_31 then s' == s.(watchdogTicks := n, watchdogEnabled := true, armed := n, counted := 0, fired := 0) else s' == s
    case Disarm => s' == s.(watchdogEnabled := false)
  }

  ghost predicate Stepped(cpu: nat, s: State, s': State)
    requires cpu < |s.t| == |s.pc|
  {
    match s.pc[cpu]
    case Idle => s' == s
    case Load =>
      var newticks := Wrap(s.t[cpu] - s.ticks);
      if newticks > 0 then s' == s.(pc := s.pc[cpu := Cas(s.ticks, newticks)])
      else s' == s.(pc := s.pc[cpu := Idle], t := s.t[cpu := if newticks < -1 then Wrap(s.ticks - 1) else s.t[cpu]])
    case Cas(global, newticks) =>
      if s.ticks == global then
        newticks > 0 && s' == s.(ticks := s.t[cpu], won := s.won + newticks, pc := s.pc[cpu := Duty(newticks)])
      else s' == s.(pc := s.pc[cpu := Load])
    case Duty(newticks) =>
      newticks > 0
      && if !s.watchdogEnabled then s' == s.(pc := s.pc[cpu := Idle])
         else s' == s.(pc := s.pc[cpu := Idle], watchdogTicks := Wrap(s.watchdogTicks - newticks), counted := s.counted + newticks,
                       fired := s.fired + if 0 < s.watchdogTicks <= newticks then 1 else 0)
  }

  ghost predicate Traced(actions: seq<Action>, trace: seq<State>) {
    && |trace| == |actions| + 1
    && forall i :: 0 <= i < |actions| ==> Followed(actions[i], trace[i], trace[i + 1])
  }

  ghost predicate Followed(a: Action, s: State, s': State) {
    |s.pc| == |s.t| && Did(a, s, s')
  }

  lemma TracedMore(actions: seq<Action>, i: nat, trace: seq<State>, s: State)
    requires i < |actions| && Traced(actions[..i], trace) && Followed(actions[i], trace[i], s)
    ensures Traced(actions[..i + 1], trace + [s])
  {
    hide Followed;
    forall j | 0 <= j < i + 1
      ensures Followed(actions[..i + 1][j], (trace + [s])[j], (trace + [s])[j + 1])
    {
      if j < i {
        assert Followed(actions[..i][j], trace[j], trace[j + 1]);
      }
    }
  }

  class Clock {
    var ticks: int
    /** pcputicks of every CPU. */
    var t: seq<int>
    var pc: seq<Pc>
    var watchdogTicks: int
    var watchdogEnabled: bool
    /** The first value of `ticks`, and the sum of the newticks won since. */
    const start: int
    ghost var won: nat
    /** The newticks subtracted from the watchdog since it was last armed. */
    ghost var counted: nat
    ghost var armed: nat
    /** Calls that fired the watchdog since it was last armed. */
    var fired: nat

    ghost function Now(): State
      reads this
    {
      State(ticks, t, pc, watchdogTicks, watchdogEnabled, won, counted, armed, fired)
    }

    ghost predicate Valid()
      reads this
    {
      && IsInt(ticks) && |pc| == |t|
      && (forall c :: 0 <= c < |t| ==> IsInt(t[c]))
      && (forall c :: 0 <= c < |t| && pc[c].Cas? ==> IsInt(pc[c].global) && pc[c].newticks == Wrap(t[c] - pc[c].global) > 0)
      && (forall c :: 0 <= c < |t| && pc[c].Duty? ==> 0 < pc[c].newticks < TWO_31)
      && ticks == Wrap(start + won)
      && 0 < armed < TWO_31 && watchdogTicks == Wrap(armed - counted)
      && fired == Crossings(armed, counted)
    }

    constructor (cpus: nat, now: int)
      requires IsInt(now)
      ensures Valid() && |t| == cpus && ticks == start == now && won == 0 && fired == 0 && !watchdogEnabled
    {
      ticks, t, pc, start, won := now, seq(cpus, i => now), seq(cpus, i => Idle), now, 0;
      watchdogTicks, watchdogEnabled, armed, counted, fired := 1, false, 1, 0, 0;
    }

    /** The interrupt: `*t += cnt`. */
    method Call(cpu: nat, cnt: nat)
      requires Valid() && cpu < |t| && pc[cpu] == Idle
      modifies `t, `pc
      ensures Valid() && t == old(t)[cpu := Wrap(old(t)[cpu] + cnt)] && pc == old(pc)[cpu := Load]
    {
      t := t[cpu := Wrap(t[cpu] + cnt)];
      pc := pc[cpu := Load];
    }

    /** `global = ticks`, and what the CPU decides from it. */
    method LoadTicks(cpu: nat)
      requires Valid() && cpu < |t| && pc[cpu] == Load
      modifies `t, `pc
      ensures Valid() && |t| == old(|t|)
      ensures var newticks := Wrap(old(t)[cpu] - ticks);
              if newticks > 0 then pc == old(pc)[cpu := Cas(ticks, newticks)] && t == old(t)
              else pc == old(pc)[cpu := Idle] && t == old(t)[cpu := if newticks < -1 then Wrap(ticks - 1) else old(t)[cpu]]
    {
      var global := ticks;
      var newticks := Wrap(t[cpu] - global);
      if newticks <= 0 {
        if newticks < -1 {
          t := t[cpu := Wrap(global - 1)];
        }
        pc := pc[cpu := Idle];
      } else {
        pc := pc[cpu := Cas(global, newticks)];
      }
    }

    /** atomic_cmpset_int on `ticks`: time only goes forward, by newticks, or
        the CPU tries again. */
    method CompareAndSet(cpu: nat)
      requires Valid() && cpu < |t| && pc[cpu].Cas?
      modifies `ticks, `pc, `won
      ensures Valid()
      ensures var p := old(pc)[cpu];
              if old(ticks) == p.global
              then ticks == t[cpu] && won == old(won) + p.newticks && p.newticks > 0 && pc == old(pc)[cpu := Duty(p.newticks)]
              else ticks == old(ticks) && won == old(won) && pc == old(pc)[cpu := Load]
    {
      var p := pc[cpu];
      if ticks == p.global {
        Advanced(t[cpu], p.global);
        WrapPlus(start + won, p.newticks);
        ticks := t[cpu];
        won := won + p.newticks;
        pc := pc[cpu := Duty(p.newticks)];
      } else {
        pc := pc[cpu := Load];
      }
    }

    /** The winner's duty: the atomic subtraction from the watchdog. It fires
        exactly when the sum passes the armed value, or comes round to it again
        after a multiple of 2^32. */
    method Watchdog(cpu: nat) returns (fire: bool)
      requires Valid() && cpu < |t| && pc[cpu].Duty?
      modifies `pc, `watchdogTicks, `counted, `fired
      ensures Valid() && pc == old(pc)[cpu := Idle]
      ensures counted == old(counted) + if watchdogEnabled then old(pc)[cpu].newticks else 0
      ensures fire <==> watchdogEnabled && exists k: nat :: Passes(armed, old(counted), old(pc)[cpu].newticks, k)
      ensures watchdogEnabled && counted < armed + TWO_32 ==> (fire <==> old(counted) < armed <= counted)
      ensures fired == old(fired) + if fire then 1 else 0
      ensures fire <==> watchdogEnabled && 0 < old(watchdogTicks) <= old(pc)[cpu].newticks
      ensures watchdogTicks == if watchdogEnabled then Wrap(old(watchdogTicks) - old(pc)[cpu].newticks) else old(watchdogTicks)
    {
      var newticks := pc[cpu].newticks;
      fire := false;
      pc := pc[cpu := Idle];
      if watchdogEnabled {
        var i := watchdogTicks;
        WrapMinus(armed - counted, newticks);
        FiresOnCrossing(armed, counted, newticks);
        watchdogTicks := Wrap(watchdogTicks - newticks);
        counted := counted + newticks;
        if i > 0 && i <= newticks {
          fire := true;
          fired := fired + 1;
        }
      }
    }

    /** hardclock_sync. */
    method SyncCpu(cpu: nat)
      requires Valid() && cpu < |t| && pc[cpu] == Idle
      modifies `t
      ensures Valid() && t == old(t)[cpu := ticks]
    {
      t := t[cpu := ticks];
    }

    /** watchdog_config. */
    method Configure(n: nat)
      requires Valid() && 0 < n < TWO_31
      modifies `watchdogTicks, `watchdogEnabled, `armed, `counted, `fired
      ensures Valid() && watchdogEnabled && watchdogTicks == armed == n && counted == 0 && fired == 0
    {
      watchdogTicks, watchdogEnabled := n, true;
      armed, counted, fired := n, 0, 0;
    }

    /** The next memory access of a CPU. */
    method Access(cpu: nat)
      requires Valid() && cpu < |t|
      modifies this
      ensures Valid() && |t| == old(|t|) && old(won) <= won
      ensures ticks == Wrap(old(ticks) + (won - old(won)))
      ensures armed == old(armed) && old(counted) <= counted && old(fired) <= fired
      ensures |old(t)| == |old(pc)| && Stepped(cpu, old(Now()), Now())
    {
      hide Wrap, Crossings;
      WrapPlus(start + won, 0);
      match pc[cpu] {
        case Idle =>
        case Load => LoadTicks(cpu);
        case Cas(_, _) => CompareAndSet(cpu);
        case Duty(_) => var fire := Watchdog(cpu);
      }
      WrapPlus(start + old(won), won - old(won));
    }

    /** One action; one that cannot happen at its turn changes nothing. */
    method Act(a: Action)
      requires Valid()
      modifies this
      ensures Valid() && |t| == old(|t|) && old(won) <= won
      ensures ticks == Wrap(old(ticks) + (won - old(won)))
      ensures !a.Arm? ==> armed == old(armed) && old(counted) <= counted && old(fired) <= fired
      ensures Followed(a, old(Now()), Now())
    {
      hide Wrap, Crossings;
      WrapPlus(start + won, 0);
      match a {
        case Tick(cpu, cnt) =>
          if cpu < |t| && pc[cpu] == Idle {
            Call(cpu, cnt);
          }
        case Step(cpu) =>
          if cpu < |t| {
            Access(cpu);
          }
        case Sync(cpu) =>
          if cpu < |t| && pc[cpu] == Idle {
            SyncCpu(cpu);
          }
        case Arm(n) =>
          if 0 < n < TWO_31 {
            Configure(n);
          }
        case Disarm =>
          watchdogEnabled := false;
      }
      WrapPlus(start + old(won), won - old(won));
    }

    /** Any interleaving of the CPUs: `ticks` has gone forward by the newticks
        won, and a watchdog armed before the run has fired at most once, and
        once exactly if the sum has reached what it was armed with (up to the
        point where the sum comes round again). `trace` records what each action
        did. */
    method Run(actions: seq<Action>) returns (ghost trace: seq<State>)
      requires Valid()
      requires forall i :: 0 <= i < |actions| ==> !actions[i].Arm?
      modifies this
      ensures Valid() && old(won) <= won && ticks == Wrap(old(ticks) + (won - old(won)))
      ensures armed == old(armed)
      ensures counted < armed + TWO_32 ==> fired == if counted < armed then 0 else 1
      ensures Traced(actions, trace) && trace[0] == old(Now()) && trace[|actions|] == Now()
    {
      hide Wrap, Followed;
      var i := 0;
      trace := [Now()];
      WrapPlus(start + won, 0);
      while i < |actions|
        invariant 0 <= i <= |actions| && Valid() && old(won) <= won && armed == old(armed)
        invariant Traced(actions[..i], trace) && trace[0] == old(Now()) && trace[i] == Now()
      {
        Act(actions[i]);
        TracedMore(actions, i, trace, Now());
        trace := trace + [Now()];
        i := i + 1;
      }
      assert actions[..i] == actions;
      WrapPlus(start + old(won), won - old(won));
    }
  }

  /** How often a sum that has grown from 0 to `s` has passed `n`, counting
      modulo 2^32. */
  function Crossings(n: nat, s: nat): nat {
    if s < n then 0 else (s - n) / 0x1_0000_0000 + 1
  }

  lemma WrapAround(x: int, k: nat)
    ensures Wrap(x + k * 0x1_0000_0000) == Wrap(x)
  {
  }

  lemma FiresOnCrossing(n: nat, s: nat, d: nat)
    requires 0 < n < TWO_31 && 0 < d < TWO_31
    ensures var i := Wrap(n - s); Crossings(n, s + d) == Crossings(n, s) + if 0 < i <= d then 1 else 0
    ensures var i := Wrap(n - s); 0 < i <= d <==> exists k: nat :: Passes(n, s, d, k)
    ensures s + d < n + TWO_32 ==> (s < n <= s + d <==> exists k: nat :: Passes(n, s, d, k))
  {
    var i := Wrap(n - s);
    if 0 < i <= d {
      assert Passes(n, s, d, Crossings(n, s));
    }
    forall k: nat | Passes(n, s, d, k)
      ensures 0 < i <= d
    {
      WrapAround(n - s, k);
    }
    assert s < n <= s + d ==> Passes(n, s, d, 0);
  }

  /** A step of `d` from `s` passes the `k`-th value that wraps round to `n`. */
  predicate Passes(n: nat, s: nat, d: nat, k: nat) {
    s < n + k * 0x1_0000_0000 <= s + d
  }
}
