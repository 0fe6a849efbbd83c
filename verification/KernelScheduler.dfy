/** The scheduler and process manager in place: fields changed by loops, call by call. */
module KernelSchedulers {
  import opened Options
  import opened Scheduling

  class KernelScheduler {
    /** Process structures by address. */
    var procs: map<nat, Proc>
    var table: map<nat, nat>
    var ready: seq<nat>
    var sleeping: seq<nat>
    var queues: seq<seq<nat>>
    var current: Option<nat>
    var idle: nat
    var gmin: nat
    ghost var started: set<nat>

    ghost function S(): State
      reads this
    {
      State(procs, table, ready, sleeping, queues, current, idle, gmin, started)
    }

    /** The state after boot: the idle process registered under pid 1 and nothing started. */
    constructor (idle: nat, n: nat)
      ensures S() == Boot(idle, n) && Inv(S())
    {
      procs, table := map[idle := Proc(1, 0, 0, 0, Ready)], map[1 := idle];
      ready, sleeping, queues, current, gmin := [], [], seq(n, _ => []), None, 0;
      this.idle, started := idle, {};
      new;
      BootInv(idle, n);
    }

    // ----- lists

    method SchedulerAdd(p: nat)
      requires p in procs
      modifies this
      ensures S() == Add(old(S()), p)
    {
      if |ready| >= MAX_PROCESSES {
        return;
      }
      procs := procs[p := procs[p].(vruntime := gmin)];
      ready := ready + [p];
    }

    method SchedulerRemove(p: nat)
      modifies this`ready
      ensures ready == Without(old(ready), p)
    {
      var i := 0;
      IndexFrom(ready, p, 0);
      while i < |ready|
        invariant 0 <= i <= |ready| && ready == old(ready)
        invariant forall k :: 0 <= k < i ==> ready[k] != p
      {
        if ready[i] == p {
          IndexFrom(ready, p, i);
          ready := ready[i := ready[|ready| - 1]][..|ready| - 1];
          return;
        }
        i := i + 1;
      }
      IndexFrom(ready, p, i);
    }

    method SchedulerRemoveFromSleep(p: nat)
      modifies this`sleeping
      ensures sleeping == Without(old(sleeping), p)
    {
      var i := 0;
      while i < |sleeping|
        invariant 0 <= i <= |sleeping| && sleeping == old(sleeping)
        invariant forall k :: 0 <= k < i ==> sleeping[k] != p
      {
        if sleeping[i] == p {
          IndexFrom(sleeping, p, i);
          sleeping := sleeping[i := sleeping[|sleeping| - 1]][..|sleeping| - 1];
          return;
        }
        i := i + 1;
      }
      IndexFrom(sleeping, p, i);
    }

    // ----- choosing

    method UpdateMinVruntime()
      requires Known(S())
      modifies this`gmin
      ensures S() == UpdateMin(old(S()))
    {
      if |ready| == 0 {
        return;
      }
      ghost var s := S();
      var min := procs[ready[0]].vruntime;
      BestOne(s);
      var i := 1;
      while i < |ready|
        invariant 1 <= i <= |ready| && S() == s
        invariant Best(s, i) in s.procs && min == s.procs[Best(s, i)].vruntime
      {
        BestStep(s, i);
        if procs[ready[i]].vruntime < min {
          min := procs[ready[i]].vruntime;
        }
        i := i + 1;
      }
      gmin := min;
    }

    method SchedulerNext() returns (p: nat)
      requires Known(S())
      ensures p == Next(S())
    {
      if |ready| == 0 {
        return idle;
      }
      BestOne(S());
      p := ready[0];
      var i := 1;
      while i < |ready|
        invariant 1 <= i <= |ready|
        invariant p in procs && p == Best(S(), i)
      {
        BestStep(S(), i);
        if procs[ready[i]].vruntime < procs[p].vruntime {
          p := ready[i];
        }
        i := i + 1;
      }
    }

    // ----- ticks

    /** The running process pays for the tick. */
    method PayRunning()
      requires Legal(S())
      modifies this
      ensures S() == Pay(old(S()))
    {
      hide Best;
      if current.Some? && current.value != idle && current.value in procs {
        var p := current.value;
        ChargeIs(procs[p].nice);
        procs := procs[p := procs[p].(vruntime := procs[p].vruntime + 1024 / (1024 / (procs[p].nice + 1)))];
        UpdateMinVruntime();
      }
    }

    method SchedulerTick()
      requires Legal(S())
      modifies this
      ensures S() == Tick(old(S()))
    {
      hide Pay, Add, SwapOut, TickSleepers;
      PayFacts(S());
      PayRunning();
      ghost var paid := S();
      var i := 0;
      while i < |sleeping|
        invariant 0 <= i <= |sleeping| && SleepersKnown(S())
        invariant TickSleepers(S(), i) == TickSleepers(paid, 0)
        decreases |sleeping| - i
      {
        SleeperTurn(S(), i);
        var p := sleeping[i];
        procs := procs[p := procs[p].(sleepTicks := procs[p].sleepTicks - 1)];
        if procs[p].sleepTicks <= 0 {
          sleeping := SwapOut(sleeping, i);
          SchedulerAdd(p);
        } else {
          i := i + 1;
        }
      }
      SleepersDone(S());
    }

    /** The timer interrupt: tick, then switch to the process of smallest virtual run time. */
    method TimerInterrupt()
      requires AlmostInv(S())
      modifies this
      ensures S() == Yield(old(S()))
      ensures Inv(S())
    {
      hide AlmostInv, Inv, Tick, Pick, Next, Known, Legal;
      ghost var s := S();
      LegalOf(s);
      TickKnown(s);
      YieldKeeps(s);
      SchedulerTick();
      var next := SchedulerNext();
      Switched(S(), next);
      current := Some(next);
    }

    // ----- calls

    method SleepFor(n: int)
      requires Inv(S()) && Allowed(S(), Sleep(n))
      modifies this
      ensures S() == Apply(old(S()), Sleep(n))
    {
      hide Inv, AlmostInv, Yield;
      if n <= 0 {
        return;
      }
      ghost var s := S();
      var p := current.value;
      RunningKnown(s);
      SleepAlmost(s, n);
      procs := procs[p := procs[p].(sleepTicks := n)];
      SchedulerRemove(p);
      if |sleeping| < MAX_PROCESSES {
        sleeping := sleeping + [p];
      }
      TimerInterrupt();
    }

    method WaitOn(q: nat)
      requires Inv(S()) && Allowed(S(), Wait(q))
      modifies this
      ensures S() == Apply(old(S()), Wait(q))
    {
      hide Inv, AlmostInv, Yield;
      ghost var s := S();
      var p := current.value;
      RunningKnown(s);
      WaitAlmost(s, q);
      procs := procs[p := procs[p].(state := Waiting)];
      SchedulerRemove(p);
      if |queues[q]| < MAX_PROCESSES {
        queues := queues[q := queues[q] + [p]];
      }
      TimerInterrupt();
    }

    method WakeUpAll(q: nat)
      requires Inv(S()) && Allowed(S(), WakeUp(q))
      modifies this
      ensures S() == Apply(old(S()), WakeUp(q))
    {
      hide Inv, Add, WakeAll, Apply;
      ghost var s := S();
      QueueMembers(s, q);
      var i := 0;
      while i < |queues[q]|
        invariant queues == s.queues && 0 <= i <= |queues[q]|
        invariant forall p :: p in queues[q] ==> p in procs
        invariant WakeAll(S(), queues[q][i..]) == WakeAll(s, s.queues[q])
      {
        var p := queues[q][i];
        assert queues[q][i..][0] == p && queues[q][i..][1..] == queues[q][i + 1..];
        WakeNext(S(), queues[q][i..]);
        procs := procs[p := procs[p].(state := Ready)];
        SchedulerAdd(p);
        i := i + 1;
      }
      assert queues[q][i..] == [];
      WakeDone(S());
      queues := queues[q := []];
      ApplyWakeUp(s, q);
    }

    method WakeUpFirst(q: nat)
      requires Inv(S()) && Allowed(S(), WakeUpOne(q))
      modifies this
      ensures S() == Apply(old(S()), WakeUpOne(q))
    {
      hide Inv;
      ghost var s := S();
      QueueMembers(s, q);
      if |queues[q]| == 0 {
        return;
      }
      var p := queues[q][0];
      var list := queues[q];
      var i := 1;
      while i < |list|
        invariant 1 <= i <= |list| == |queues[q]|
        invariant list[..i - 1] == queues[q][1..i] && list[i - 1..] == queues[q][i - 1..]
      {
        assert list[i] == list[i - 1..][1] == queues[q][i];
        list := list[i - 1 := list[i]];
        assert list[..i] == list[..i - 1] + [list[i - 1]];
        assert list[i..] == queues[q][i..] by { assert queues[q][i - 1..][1..] == queues[q][i..]; }
        i := i + 1;
      }
      queues := queues[q := list[..|list| - 1]];
      assert queues[q] == s.queues[q][1..];
      procs := procs[p := procs[p].(state := Ready)];
      SchedulerAdd(p);
    }

    method AllocatePid() returns (pid: nat)
      ensures pid == FreePid(table, 1)
    {
      pid := 1;
      while pid < MAX_PROCESSES
        invariant 1 <= pid <= MAX_PROCESSES && FreePid(table, pid) == FreePid(table, 1)
      {
        if pid !in table {
          return;
        }
        pid := pid + 1;
      }
    }

    /** A new process at the memory the caller obtained (None: out of memory). */
    method CreateProcess(addr: Option<nat>) returns (p: Option<nat>)
      requires Inv(S()) && Allowed(S(), Create(addr))
      modifies this
      ensures S() == Apply(old(S()), Create(addr))
      ensures p.Some? <==> addr.Some? && FreePid(old(table), 1) < MAX_PROCESSES
      ensures p.Some? ==> p == addr
    {
      hide Inv;
      var pid := AllocatePid();
      if pid == MAX_PROCESSES || addr.None? {
        return None;
      }
      procs := procs[addr.value := Proc(pid, 0, 0, 0, Ready)];
      table := table[pid := addr.value];
      p := addr;
    }

    method ProcessStart(p: nat)
      requires Inv(S()) && Allowed(S(), Start(p))
      modifies this
      ensures S() == Apply(old(S()), Start(p))
    {
      hide Inv;
      procs := procs[p := procs[p].(state := Ready)];
      SchedulerAdd(p);
      started := started + {p};
    }

    method ProcessExitCurrent()
      requires Inv(S()) && Allowed(S(), Exit)
      modifies this
      ensures S() == Apply(old(S()), Exit)
    {
      hide Inv, AlmostInv, Without, ExitSpec, Pick, Next, Apply;
      ghost var s := S();
      var p := current.value;
      RunningKnown(s);
      ExitKnown(s);
      ApplyExit(s);
      SchedulerRemove(p);
      SchedulerRemoveFromSleep(p);
      current := None;
      table := table - {procs[p].pid};
      procs := procs - {p};
      started := started - {p};
      ExitSteps(s, p, S());
      var next := SchedulerNext();
      Switched(S(), next);
      current := Some(next);
    }
  }

  predicate SleepersKnown(s: State) { forall p :: p in s.sleeping ==> p in s.procs }

  lemma SleepersDone(s: State)
    requires SleepersKnown(s)
    ensures TickSleepers(s, |s.sleeping|) == s
  {
  }

  /** One turn of the sleep loop. */
  lemma SleeperTurn(s: State, i: nat)
    requires i < |s.sleeping| && SleepersKnown(s)
    ensures var p := s.sleeping[i];
            var s1 := s.(procs := s.procs[p := s.procs[p].(sleepTicks := s.procs[p].sleepTicks - 1)]);
            if s1.procs[p].sleepTicks <= 0 then
              var s2 := s1.(sleeping := SwapOut(s.sleeping, i));
              && SleepersKnown(Add(s2, p)) && |Add(s2, p).sleeping| == |s.sleeping| - 1
              && TickSleepers(Add(s2, p), i) == TickSleepers(s, i)
            else SleepersKnown(s1) && TickSleepers(s1, i + 1) == TickSleepers(s, i)
  {
    hide SwapOut;
    SwapOutIn(s.sleeping, i);
  }

  lemma {:induction false} IndexFrom(list: seq<nat>, p: nat, i: nat)
    requires i <= |list| && forall k :: 0 <= k < i ==> list[k] != p
    ensures i == |list| || list[i] == p ==> Index(list, p) == i
  {
  }

  lemma BestOne(s: State)
    requires Known(s) && s.ready != []
    ensures s.ready[0] in s.procs && Best(s, 1) == s.ready[0]
  {
    assert s.ready[0] in s.ready;
  }

  lemma BestStep(s: State, n: nat)
    requires Known(s) && 0 < n < |s.ready|
    ensures Best(s, n) in s.procs && s.ready[n] in s.procs
    ensures Best(s, n + 1) == if s.procs[s.ready[n]].vruntime < s.procs[Best(s, n)].vruntime then s.ready[n] else Best(s, n)
  {
    assert s.ready[n] in s.ready;
    assert s.ready[..n] <= s.ready;
    assert Best(s, n) in s.ready;
  }

  lemma ChargeIs(nice: nat)
    requires nice < 1024
    ensures 1024 / (nice + 1) > 0 && Charge(nice) == 1024 / (1024 / (nice + 1))
  {
    ChargeBounds(nice);
  }

  lemma ApplyExit(s: State)
    requires Inv(s) && Running(s) && s.current.value in s.procs && Known(ExitSpec(s))
    ensures Apply(s, Exit) == Pick(ExitSpec(s))
  {
    hide Inv, ExitSpec, Pick;
  }

  lemma ExitSteps(s: State, p: nat, t: State)
    requires Running(s) && p == s.current.value && p in s.procs
    requires t == s.(ready := Without(s.ready, p), sleeping := Without(s.sleeping, p), current := None,
                     table := s.table - {s.procs[p].pid}, procs := s.procs - {p}, started := s.started - {p})
    ensures t == ExitSpec(s)
  {
  }

  lemma Switched(s: State, next: nat)
    requires Known(s) && next == Next(s)
    ensures s.(current := Some(next)) == Pick(s)
  {
  }
}
