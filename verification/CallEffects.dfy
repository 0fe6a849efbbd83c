/** What each call on processes does: who is registered, where everyone waits, and who runs. */
module CallEffects {
  import opened Options
  import opened Scheduling

  predicate InNoList(s: State, p: nat) { p !in s.ready && p !in s.sleeping && p !in InQueues(s.queues) }

  ghost predicate SameLists(s: State, t: State) {
    t.ready == s.ready && t.sleeping == s.sleeping && t.queues == s.queues && t.current == s.current
    && t.idle == s.idle && t.gmin == s.gmin
  }

  /** Everything but process p and the lists is as before. */
  ghost predicate OthersSame(s: State, t: State, p: nat) {
    forall q :: q != p ==> (q in t.procs <==> q in s.procs) && (q in s.procs && q in t.procs ==> t.procs[q] == s.procs[q])
  }

  /** n is the least number from 1 to 255 that is no pid in use. */
  ghost predicate LeastFree(table: map<nat, nat>, n: nat) {
    1 <= n <= 255 && n !in table && forall k :: 1 <= k < n ==> k in table
  }

  /** With memory and a pid left, creating a process registers it under the least free pid, at nice value
      0 and not started, in no list, and ready to be started; nothing else changes. */
  lemma Created(s: State, a: nat, n: nat)
    requires Inv(s) && Allowed(s, Create(Some(a))) && LeastFree(s.table, n)
    ensures var t := Apply(s, Create(Some(a)));
      && a in t.procs && t.procs[a].pid == n && t.procs[a].nice == 0 && t.procs[a].vruntime == 0
      && t.procs[a].state == Ready && t.table == s.table[n := a]
      && InNoList(t, a) && a !in t.started && Allowed(t, Start(a))
      && SameLists(s, t) && t.started == s.started && OthersSame(s, t, a)
  {
    hide InQueues, TableOk, SleepersOk, MinOk, CurrentOk;
    assert FreePid(s.table, 1) == n;
    var t := Apply(s, Create(Some(a)));
    if !InNoList(s, a) {
      ListedIn(s, a);
    }
  }

  /** Without memory, or with all 255 pids in use, nothing changes. */
  lemma NotCreated(s: State, addr: Option<nat>)
    requires Inv(s) && Allowed(s, Create(addr)) && (addr.None? || forall n :: 1 <= n <= 255 ==> n in s.table)
    ensures Apply(s, Create(addr)) == s
  {
    hide Inv;
    var pid := FreePid(s.table, 1);
    assert addr.Some? ==> pid == 256;
  }

  /** Starting a process puts it last in the ready list, at the least run time of those waiting there, and
      changes no other process and no other list. */
  lemma Started(s: State, p: nat)
    requires Inv(s) && Allowed(s, Start(p))
    ensures var t := Apply(s, Start(p));
      && t.ready == s.ready + [p] && t.started == s.started + {p}
      && p in t.procs && t.procs[p] == s.procs[p].(state := Ready, vruntime := s.gmin)
      && t.sleeping == s.sleeping && t.queues == s.queues && t.current == s.current && t.table == s.table && t.gmin == s.gmin
      && OthersSame(s, t, p)
  {
    hide InQueues, TableOk, SleepersOk, MinOk, CurrentOk;
    ListsHaveRoom(s);
  }

  /** After a timer interrupt the idle process runs if no process is ready; otherwise one of the ready
      processes does, none of which has a smaller run time and none before it as small a one. */
  lemma Switches(s: State)
    requires Inv(s)
    ensures var t := Apply(s, Timer);
      && t.current.Some?
      && (t.ready == [] ==> t.current == Some(s.idle))
      && (t.ready != [] ==> exists k :: 0 <= k < |t.ready| && t.current == Some(t.ready[k]) && Earliest(t, k))
  {
    hide Inv, Tick;
    LegalOf(s);
    TickKnown(s);
    var u := Tick(s);
    TickIdle(s);
    if u.ready != [] {
      var k := BestPlace(u, |u.ready|);
      assert Earliest(Pick(u), k);
    }
  }

  ghost predicate Earliest(s: State, k: nat)
    requires k < |s.ready|
  {
    && s.ready[k] in s.procs
    && (forall j :: 0 <= j < |s.ready| ==> s.ready[j] in s.procs && s.procs[s.ready[k]].vruntime <= s.procs[s.ready[j]].vruntime)
    && (forall j :: 0 <= j < k ==> s.ready[j] in s.procs && s.procs[s.ready[k]].vruntime < s.procs[s.ready[j]].vruntime)
  }

  lemma {:induction false} BestPlace(s: State, n: nat) returns (k: nat)
    requires Known(s) && 0 < n <= |s.ready|
    ensures k < n && s.ready[k] == Best(s, n) && s.ready[k] in s.procs
    ensures forall j :: 0 <= j < n ==> s.ready[j] in s.procs && s.procs[s.ready[k]].vruntime <= s.procs[s.ready[j]].vruntime
    ensures forall j :: 0 <= j < k ==> s.ready[j] in s.procs && s.procs[s.ready[k]].vruntime < s.procs[s.ready[j]].vruntime
  {
    assert forall j :: 0 <= j < |s.ready| ==> s.ready[j] in s.ready;
    if n == 1 {
      k := 0;
    } else {
      k := BestPlace(s, n - 1);
      assert Best(s, n - 1) in s.ready;
      if s.procs[s.ready[n - 1]].vruntime < s.procs[Best(s, n - 1)].vruntime {
        k := n - 1;
      }
    }
  }

  /** A tick registers and removes nobody, and changes no wait queue. */
  lemma TickIdle(s: State)
    requires Legal(s)
    ensures var t := Tick(s);
      t.idle == s.idle && t.queues == s.queues && t.table == s.table && t.started == s.started && t.current == s.current
  {
    PayFacts(s);
    SleepersIdle(Pay(s), 0);
  }

  lemma {:induction false} SleepersIdle(s: State, i: nat)
    requires forall p :: p in s.sleeping ==> p in s.procs
    ensures var t := TickSleepers(s, i);
      t.idle == s.idle && t.queues == s.queues && t.table == s.table && t.started == s.started && t.current == s.current
    decreases |s.sleeping| - i
  {
    hide SwapOut;
    if i < |s.sleeping| {
      var p := s.sleeping[i];
      var s1 := s.(procs := s.procs[p := s.procs[p].(sleepTicks := s.procs[p].sleepTicks - 1)]);
      if s1.procs[p].sleepTicks <= 0 {
        SwapOutIn(s.sleeping, i);
        SleepersIdle(Add(s1.(sleeping := SwapOut(s1.sleeping, i)), p), i);
      } else {
        SleepersIdle(s1, i + 1);
      }
    }
  }

  /** A process that waits goes to the end of that queue, whichever process the tick then picks, and no
      other queue changes. */
  lemma Waits(s: State, q: nat)
    requires Inv(s) && Allowed(s, Wait(q))
    ensures Apply(s, Wait(q)).queues == s.queues[q := s.queues[q] + [s.current.value]]
    ensures Apply(s, Wait(q)).started == s.started && Apply(s, Wait(q)).table == s.table
  {
    hide Inv, AlmostInv, Tick, ToQueue;
    RunningKnown(s);
    WaitAlmost(s, q);
    var t := ToQueue(s, s.current.value, q);
    QueuedOnly(s, s.current.value, q);
    LegalOf(t);
    TickKnown(t);
    TickIdle(t);
  }

  lemma QueuedOnly(s: State, p: nat, q: nat)
    requires p in s.procs && q < |s.queues| && ToQueue(s, p, q).queues[q] == s.queues[q] + [p]
    ensures var t := ToQueue(s, p, q); t.queues == s.queues[q := s.queues[q] + [p]] && t.started == s.started && t.table == s.table
  {
  }

  /** Waking a queue appends all of it, first to last, to the ready list, each at the least run time there
      and in the ready state, and empties it. */
  lemma Wakes(s: State, q: nat)
    requires Inv(s) && Allowed(s, WakeUp(q))
    ensures var t := Apply(s, WakeUp(q));
      && t.ready == s.ready + s.queues[q] && t.queues == s.queues[q := []]
      && t.sleeping == s.sleeping && t.current == s.current && t.table == s.table && t.started == s.started && t.gmin == s.gmin
      && forall p :: p in s.procs ==>
           p in t.procs && t.procs[p] == if p in s.queues[q] then s.procs[p].(state := Ready, vruntime := s.gmin) else s.procs[p]
  {
    hide Inv, WakeAll;
    ApplyWakeUp(s, q);
    RoomForQueue(s, q);
    Appended(s, s.queues[q]);
  }

  lemma RoomForQueue(s: State, q: nat)
    requires Inv(s) && q < |s.queues|
    ensures |s.ready| + |s.queues[q]| <= 254
  {
    ListsHaveRoom(s);
    QueueSize(s.queues, q);
    assert |Listed(s)| == |s.ready| + |s.sleeping| + |InQueues(s.queues)|;
    FewProcesses(s);
    SubsetSize(s.started, s.procs.Keys - {s.idle});
    assert |multiset(s.started)| == |s.started|;
  }

  lemma {:induction false} Appended(s: State, list: seq<nat>)
    requires (forall p :: p in list ==> p in s.procs) && |s.ready| + |list| <= 256
    ensures var t := WakeAll(s, list);
      && t.ready == s.ready + list && t == s.(ready := t.ready, procs := t.procs)
      && forall p :: p in s.procs ==>
           p in t.procs && t.procs[p] == if p in list then s.procs[p].(state := Ready, vruntime := s.gmin) else s.procs[p]
    decreases |list|
  {
    hide WakeAll;
    if list == [] {
      WakeDone(s);
    } else {
      WakeNext(s, list);
      Appended(Add(SetState(s, list[0], Ready), list[0]), list[1..]);
      assert list == [list[0]] + list[1..];
    }
  }

  /** Waking one process takes the first of the queue to the end of the ready list. */
  lemma WakesOne(s: State, q: nat)
    requires Inv(s) && Allowed(s, WakeUpOne(q)) && s.queues[q] != []
    ensures var p, t := s.queues[q][0], Apply(s, WakeUpOne(q));
      && t.ready == s.ready + [p] && t.queues == s.queues[q := s.queues[q][1..]]
      && t.sleeping == s.sleeping && t.current == s.current && t.table == s.table && t.started == s.started && t.gmin == s.gmin
      && p in s.procs && p in t.procs && t.procs[p] == s.procs[p].(state := Ready, vruntime := s.gmin) && OthersSame(s, t, p)
  {
    hide TableOk, SleepersOk, MinOk, CurrentOk;
    QueueMembers(s, q);
    ListsHaveRoom(s);
  }

  /** An exit takes the process, its pid and its place in the lists away, and nothing else; another process
      runs then: the idle one if no other is ready. */
  lemma Exits(s: State)
    requires Inv(s) && Allowed(s, Exit)
    ensures var p, t := s.current.value, Apply(s, Exit);
      && p in s.procs && t.procs == s.procs - {p} && t.table == s.table - {s.procs[p].pid} && t.started == s.started - {p}
      && multiset(t.ready) == multiset(s.ready) - multiset{p} && p !in t.ready && t.queues == s.queues && t.sleeping == s.sleeping
      && t.current.Some? && (t.ready == [] ==> t.current == Some(s.idle)) && (t.ready != [] ==> t.current.value in t.ready)
  {
    hide TableOk, SleepersOk, MinOk, CurrentOk, InQueues;
    RunningKnown(s);
    ExitKnown(s);
    ExitGone(s);
    var p := s.current.value;
    WithoutMultiset(s.ready, p);
    NotAsleep(s, p);
    var u := ExitSpec(s);
    if u.ready != [] {
      BestReady(u);
    }
  }

  lemma NotAsleep(s: State, p: nat)
    requires Inv(s) && p in s.ready
    ensures p !in s.sleeping && Without(s.sleeping, p) == s.sleeping
  {
    LegalOf(s);
    assert (multiset(s.ready) + multiset(s.sleeping))[p] == multiset(s.ready)[p] + multiset(s.sleeping)[p];
    assert Listed(s)[p] == multiset(s.started)[p];
  }

  /** A tick costs the quotient of 1024 by the weight, and the weight is the quotient of 1024 by the nice
      value plus one. */
  lemma ChargeExact(nice: nat) returns (weight: nat)
    requires nice < 1024
    ensures weight * (nice + 1) <= 1024 < (weight + 1) * (nice + 1)
    ensures Charge(nice) * weight <= 1024 < (Charge(nice) + 1) * weight
  {
    ChargeBounds(nice);
    weight := 1024 / (nice + 1);
    Quotient(1024, nice + 1);
    Around(1024, nice + 1);
    Around(1024, weight);
  }

  lemma Around(a: nat, b: nat)
    requires b > 0
    ensures a / b * b <= a < (a / b + 1) * b
  {
    assert a == a / b * b + a % b;
  }

  /** The first process of a machine just started: created, started, and running after the next tick. */
  lemma FirstProcess(idle: nat, queues: nat, a: nat)
    requires a != idle
    ensures var s := Boot(idle, queues);
      && Inv(s) && Allowed(s, Create(Some(a)))
      && var s1 := Apply(s, Create(Some(a)));
      && Inv(s1) && Allowed(s1, Start(a)) && s1.procs[a].pid == 2
      && var s2 := Apply(s1, Start(a));
      && Inv(s2) && s2.ready == [a] && Apply(s2, Timer).current == Some(a)
  {
    hide Inv;
    var s := Boot(idle, queues);
    BootInv(idle, queues);
    assert LeastFree(s.table, 2);
    Created(s, a, 2);
    StepKeeps(s, Create(Some(a)));
    var s1 := Apply(s, Create(Some(a)));
    Started(s1, a);
    StepKeeps(s1, Start(a));
    var s2 := Apply(s1, Start(a));
    LegalOf(s2);
    TickKnown(s2);
    assert s2.sleeping == [] && s2.current == None;
    assert Tick(s2) == s2;
    Switches(s2);
  }
}
