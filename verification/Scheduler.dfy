/** Processes and the scheduler as a state machine: ready, sleep and wait lists, virtual run times,
    the process table. Each call is one step; yielding is a tick followed by a pick. */
module Scheduling {
  import opened Options

  const MAX_PROCESSES: nat := 256

  datatype Task = Ready | Waiting | Sleeping | Blocked

  datatype Proc = Proc(pid: nat, nice: nat, vruntime: nat, sleepTicks: int, state: Task)

  /** Processes are known by address. started holds those started and not yet exited. */
  datatype State = State(
    procs: map<nat, Proc>, table: map<nat, nat>, ready: seq<nat>, sleeping: seq<nat>, queues: seq<seq<nat>>,
    current: Option<nat>, idle: nat, gmin: nat, started: set<nat>)

  // ----- the scheduler's own steps

  /** Units of virtual run time a tick costs; nice runs from 0 to 1023. */
  function Charge(nice: nat): nat
    requires nice < 1024
  {
    1024 / (1024 / (nice + 1))
  }

  lemma ChargeBounds(nice: nat)
    requires nice < 1024
    ensures 1 <= Charge(nice) <= 1024 && Charge(0) == 1
  {
    Quotient(1024, nice + 1);
    Quotient(1024, 1024 / (nice + 1));
  }

  lemma Quotient(a: nat, b: nat)
    requires 1 <= b <= a
    ensures 1 <= a / b <= a
  {
    var q := a / b;
    assert a == q * b + a % b;
    assert q == 0 ==> q * b == 0;
    assert q > a ==> q * b > a by { Bigger(q, a, b); }
  }

  lemma Bigger(q: nat, a: nat, b: nat)
    requires b >= 1
    ensures q > a ==> q * b > a
  {
    assert q * b >= q;
  }

  /** scheduler_add: a process joins the ready list at the current minimum, if there is room. */
  function Add(s: State, p: nat): State
    requires p in s.procs
  {
    if |s.ready| >= MAX_PROCESSES then s else
    s.(procs := s.procs[p := s.procs[p].(vruntime := s.gmin)], ready := s.ready + [p])
  }

  function Index(list: seq<nat>, p: nat): (i: nat)
    ensures i <= |list| && (i < |list| ==> list[i] == p) && forall k :: 0 <= k < i ==> list[k] != p
  {
    if list == [] || list[0] == p then 0 else Index(list[1..], p) + 1
  }

  /** The last entry takes the place of entry i. */
  function SwapOut(list: seq<nat>, i: nat): (r: seq<nat>)
    requires i < |list|
    ensures |r| == |list| - 1
  {
    list[i := list[|list| - 1]][..|list| - 1]
  }

  function Without(list: seq<nat>, p: nat): seq<nat> {
    if Index(list, p) < |list| then SwapOut(list, Index(list, p)) else list
  }

  predicate Known(s: State) { forall p :: p in s.ready ==> p in s.procs }

  /** The earliest entry of smallest virtual run time among the first n. */
  function Best(s: State, n: nat): (p: nat)
    requires 0 < n <= |s.ready| && Known(s)
    ensures p in s.ready[..n] && forall k :: 0 <= k < n ==> s.procs[p].vruntime <= s.procs[s.ready[k]].vruntime
  {
    if n == 1 then assert s.ready[..1][0] == s.ready[0]; s.ready[0] else
    var b := Best(s, n - 1);
    assert s.ready[..n] == s.ready[..n - 1] + [s.ready[n - 1]];
    assert s.ready[n - 1] in s.procs && b in s.ready;
    if s.procs[s.ready[n - 1]].vruntime < s.procs[b].vruntime then s.ready[n - 1] else b
  }

  /** scheduler_next. */
  function Next(s: State): nat
    requires Known(s)
  {
    if s.ready == [] then s.idle else Best(s, |s.ready|)
  }

  function UpdateMin(s: State): State
    requires Known(s)
  {
    if s.ready == [] then s else
    assert Best(s, |s.ready|) in s.ready;
    s.(gmin := s.procs[Best(s, |s.ready|)].vruntime)
  }

  predicate Running(s: State) { s.current.Some? && s.current.value != s.idle }

  /** First half of a tick: the running process pays, and the minimum moves. */
  function Pay(s: State): State
    requires Known(s) && (forall p :: p in s.procs ==> s.procs[p].nice < 1024)
  {
    if Running(s) && s.current.value in s.procs then
      var p := s.current.value;
      UpdateMin(s.(procs := s.procs[p := s.procs[p].(vruntime := s.procs[p].vruntime + Charge(s.procs[p].nice))]))
    else s
  }

  /** Second half: the loop over sleepers from position i, where a removed sleeper's place is taken by
      the last one. */
  function TickSleepers(s: State, i: nat): State
    requires forall p :: p in s.sleeping ==> p in s.procs
    decreases |s.sleeping| - i
  {
    if i >= |s.sleeping| then s else
    var p := s.sleeping[i];
    var left := s.procs[p].sleepTicks - 1;
    var s1 := s.(procs := s.procs[p := s.procs[p].(sleepTicks := left)]);
    if left <= 0 then
      SwapOutIn(s1.sleeping, i);
      TickSleepers(Add(s1.(sleeping := SwapOut(s1.sleeping, i)), p), i)
    else TickSleepers(s1, i + 1)
  }

  lemma SwapOutIn(list: seq<nat>, i: nat)
    requires i < |list|
    ensures forall p :: p in SwapOut(list, i) ==> p in list
  {
  }

  // ----- well-formed states

  ghost predicate TableOk(s: State) {
    && (forall pid :: pid in s.table ==> 0 < pid < MAX_PROCESSES && s.table[pid] in s.procs && s.procs[s.table[pid]].pid == pid)
    && (forall p :: p in s.procs ==> s.procs[p].pid in s.table && s.table[s.procs[p].pid] == p)
  }

  function InQueues(queues: seq<seq<nat>>): multiset<nat> {
    if queues == [] then multiset{} else multiset(queues[0]) + InQueues(queues[1..])
  }

  /** How often each process occurs in the lists. */
  function Listed(s: State): multiset<nat> { multiset(s.ready) + multiset(s.sleeping) + InQueues(s.queues) }

  /** Every started process is in exactly one list, exactly once; no other process is in any. */
  ghost predicate Conserved(s: State) { Listed(s) == multiset(s.started) }

  ghost predicate Members(s: State) {
    && s.idle in s.procs && s.idle !in s.started
    && (forall p :: p in s.started ==> p in s.procs)
    && (forall p :: p in s.procs ==> s.procs[p].nice < 1024)
  }

  ghost predicate CurrentOk(s: State) { Running(s) ==> s.current.value in s.ready }

  ghost predicate MinOk(s: State) { forall p :: p in s.ready && p in s.procs ==> s.gmin <= s.procs[p].vruntime }

  ghost predicate SleepersOk(s: State) { forall p :: p in s.sleeping && p in s.procs ==> s.procs[p].sleepTicks >= 1 }

  ghost predicate Inv(s: State) {
    TableOk(s) && Conserved(s) && Members(s) && CurrentOk(s) && MinOk(s) && SleepersOk(s)
  }

  lemma ListedIn(s: State, p: nat)
    requires Conserved(s) && (p in s.ready || p in s.sleeping || p in InQueues(s.queues))
    ensures p in s.started
  {
    assert p in Listed(s);
  }

  /** Pids are distinct numbers from 1 to 255. */
  lemma FewProcesses(s: State)
    requires TableOk(s)
    ensures |s.procs.Keys| <= 255
  {
    var pids := set p | p in s.procs :: s.procs[p].pid;
    PidsDistinct(s, s.procs.Keys);
    assert pids == (set p | p in s.procs.Keys :: s.procs[p].pid);
    Range(pids, 255);
  }

  lemma {:induction false} PidsDistinct(s: State, ps: set<nat>)
    requires TableOk(s) && ps <= s.procs.Keys
    ensures |set p | p in ps :: s.procs[p].pid| == |ps|
    decreases |ps|
  {
    var a := set p | p in ps :: s.procs[p].pid;
    if ps != {} {
      var q :| q in ps;
      var rest := ps - {q};
      PidsDistinct(s, rest);
      var b := set p | p in rest :: s.procs[p].pid;
      forall r | r in rest ensures s.procs[r].pid != s.procs[q].pid {
        DifferentPids(s, q, r);
      }
      assert a == b + {s.procs[q].pid};
    } else {
      assert a == {};
    }
  }

  /** Different registered processes have different pids. */
  lemma DifferentPids(s: State, p: nat, q: nat)
    requires TableOk(s) && p in s.procs && q in s.procs && p != q
    ensures s.procs[p].pid != s.procs[q].pid
  {
    assert s.table[s.procs[p].pid] == p && s.table[s.procs[q].pid] == q;
  }

  lemma {:induction false} Range(ns: set<nat>, n: nat)
    requires forall k :: k in ns ==> 0 < k <= n
    ensures |ns| <= n
    decreases n
  {
    if n == 0 {
      assert ns == {};
    } else {
      Range(ns - {n}, n - 1);
      if n in ns {
        assert ns == (ns - {n}) + {n};
      } else {
        assert ns - {n} == ns;
      }
    }
  }

  /** No list is ever full: insertions are never dropped. */
  lemma ListsHaveRoom(s: State)
    requires TableOk(s) && Members(s) && Conserved(s)
    ensures |s.ready| <= 254 && |s.sleeping| <= 254 && |InQueues(s.queues)| <= 254
    ensures forall q :: 0 <= q < |s.queues| ==> |s.queues[q]| <= 254
  {
    FewProcesses(s);
    assert s.started <= s.procs.Keys - {s.idle};
    SubsetSize(s.started, s.procs.Keys - {s.idle});
    assert |multiset(s.started)| == |s.started|;
    assert |Listed(s)| == |s.ready| + |s.sleeping| + |InQueues(s.queues)|;
    forall q | 0 <= q < |s.queues| ensures |s.queues[q]| <= 254 {
      QueueSize(s.queues, q);
    }
  }

  lemma {:induction false} SubsetSize(a: set<nat>, b: set<nat>)
    requires a <= b
    ensures |a| <= |b|
  {
    assert b == a + (b - a);
  }

  lemma {:induction false} QueueSize(queues: seq<seq<nat>>, q: nat)
    requires q < |queues|
    ensures |queues[q]| <= |InQueues(queues)|
    ensures forall p :: p in queues[q] ==> p in InQueues(queues)
  {
    if q > 0 {
      QueueSize(queues[1..], q - 1);
    }
  }

  // ----- moving between lists

  lemma SwapOutMultiset(list: seq<nat>, i: nat)
    requires i < |list|
    ensures multiset(SwapOut(list, i)) == multiset(list) - multiset{list[i]}
  {
    var n := |list| - 1;
    var r := list[i := list[n]];
    assert r == r[..n] + [r[n]];
    assert list == list[..n] + [list[n]];
    assert multiset(list) == multiset(list[..n]) + multiset{list[n]};
    if i < n {
      assert r[..n] == list[..n][i := list[n]];
    } else {
      assert r[..n] == list[..n];
    }
  }

  lemma WithoutMultiset(list: seq<nat>, p: nat)
    ensures multiset(Without(list, p)) == multiset(list) - multiset{p}
  {
    hide SwapOut;
    var i := Index(list, p);
    if i < |list| {
      SwapOutMultiset(list, i);
    } else {
      assert p !in list;
    }
  }

  lemma {:induction false} QueueUpdated(queues: seq<seq<nat>>, q: nat, list: seq<nat>)
    requires q < |queues|
    ensures InQueues(queues[q := list]) == InQueues(queues) - multiset(queues[q]) + multiset(list)
    ensures multiset(queues[q]) <= InQueues(queues)
  {
    if q > 0 {
      assert queues[q := list][1..] == queues[1..][q - 1 := list];
      QueueUpdated(queues[1..], q - 1, list);
    } else {
      assert queues[q := list][1..] == queues[1..];
    }
  }

  // ----- a tick

  /** What the sleep loop needs: every sleeper is a process, listed once, and the ready list has room. */
  ghost predicate SleepReady(s: State) {
    && (forall p :: p in s.sleeping ==> p in s.procs)
    && (forall p :: (multiset(s.ready) + multiset(s.sleeping))[p] <= 1)
    && |s.ready| + |s.sleeping| < MAX_PROCESSES
  }

  ghost predicate Due(s: State, i: nat, p: nat)
    requires i <= |s.sleeping|
  {
    p in s.sleeping[i..]
  }

  /** Each sleeper from position i on is decremented once; those that reach zero are ready at the
      current minimum, the others are still asleep; nothing else changes. */
  ghost predicate Ticked(s: State, t: State, i: nat)
    requires i <= |s.sleeping|
  {
    && t == s.(procs := t.procs, ready := t.ready, sleeping := t.sleeping) && t.procs.Keys == s.procs.Keys
    && multiset(t.ready) + multiset(t.sleeping) == multiset(s.ready) + multiset(s.sleeping)
    && s.ready <= t.ready && s.sleeping[..i] <= t.sleeping
    && (forall p :: p in s.procs ==> TickedProc(s, t, i, p))
  }

  ghost predicate TickedProc(s: State, t: State, i: nat, p: nat)
    requires i <= |s.sleeping| && p in s.procs && p in t.procs
  {
    if !Due(s, i, p) then t.procs[p] == s.procs[p]
    else if s.procs[p].sleepTicks <= 1 then
      && p in t.ready && p !in t.sleeping
      && t.procs[p] == s.procs[p].(sleepTicks := s.procs[p].sleepTicks - 1, vruntime := s.gmin)
    else
      && p in t.sleeping && p !in t.ready
      && t.procs[p] == s.procs[p].(sleepTicks := s.procs[p].sleepTicks - 1)
  }

  /** In lists where nothing occurs twice, what is in one is not in the other. */
  lemma OneList(ready: seq<nat>, sleeping: seq<nat>, p: nat)
    requires (multiset(ready) + multiset(sleeping))[p] <= 1
    ensures p in ready ==> p !in sleeping
  {
    assert p in ready ==> multiset(ready)[p] >= 1;
    assert p in sleeping ==> multiset(sleeping)[p] >= 1;
  }

  /** The entry at position i occurs nowhere else. */
  lemma Once(s: State, i: nat)
    requires SleepReady(s) && i < |s.sleeping|
    ensures s.sleeping[i] !in s.sleeping[..i] && s.sleeping[i] !in s.sleeping[i + 1..] && s.sleeping[i] !in s.ready
  {
    var p := s.sleeping[i];
    assert (multiset(s.ready) + multiset(s.sleeping))[p] <= 1;
    assert s.sleeping == s.sleeping[..i] + [p] + s.sleeping[i + 1..];
    assert multiset(s.sleeping) == multiset(s.sleeping[..i]) + multiset{p} + multiset(s.sleeping[i + 1..]);
    assert multiset(s.sleeping[..i])[p] == 0 && multiset(s.sleeping[i + 1..])[p] == 0 && multiset(s.ready)[p] == 0;
  }

  lemma {:induction false} TickEach(s: State, i: nat)
    requires SleepReady(s) && i <= |s.sleeping|
    ensures Ticked(s, TickSleepers(s, i), i)
    decreases |s.sleeping| - i
  {
    hide Ticked, SwapOut;
    if i == |s.sleeping| {
      TickNone(s);
    } else {
      var p := s.sleeping[i];
      var left := s.procs[p].sleepTicks - 1;
      var s1 := s.(procs := s.procs[p := s.procs[p].(sleepTicks := left)]);
      if left <= 0 {
        Woken(s, i);
        var s2 := Add(s1.(sleeping := SwapOut(s1.sleeping, i)), p);
        TickEach(s2, i);
        TickWoken(s, s2, TickSleepers(s2, i), i);
      } else {
        TickEach(s1, i + 1);
        TickKept(s, s1, TickSleepers(s1, i + 1), i);
      }
    }
  }

  lemma TickNone(s: State)
    ensures Ticked(s, s, |s.sleeping|)
  {
  }

  lemma TickKept(s: State, s1: State, t: State, i: nat)
    requires SleepReady(s) && i < |s.sleeping| && s1.sleeping == s.sleeping && Ticked(s1, t, i + 1)
    requires var p := s.sleeping[i];
             s.procs[p].sleepTicks > 1 && s1 == s.(procs := s.procs[p := s.procs[p].(sleepTicks := s.procs[p].sleepTicks - 1)])
    ensures Ticked(s, t, i)
  {
    var p := s.sleeping[i];
    assert s.sleeping[i..] == [p] + s.sleeping[i + 1..];
    assert s.sleeping[..i + 1] == s.sleeping[..i] + [p];
    Once(s, i);
    forall q | q in s.procs ensures TickedProc(s, t, i, q) {
      assert TickedProc(s1, t, i + 1, q);
      if q == p {
        assert t.sleeping[i] == p;
        assert (multiset(s.ready) + multiset(s.sleeping))[p] <= 1;
        OneList(t.ready, t.sleeping, p);
      }
    }
  }

  /** Moving sleeper i to the ready list. */
  lemma Woken(s: State, i: nat)
    requires SleepReady(s) && i < |s.sleeping|
    ensures var p, out := s.sleeping[i], SwapOut(s.sleeping, i);
            && multiset(s.ready + [p]) + multiset(out) == multiset(s.ready) + multiset(s.sleeping)
            && (forall q :: q in out ==> q in s.sleeping && q in s.procs)
            && i <= |out| && out[..i] == s.sleeping[..i]
            && (forall q :: q in out[i..] <==> q in s.sleeping[i..] && q != p)
  {
    var p, out := s.sleeping[i], SwapOut(s.sleeping, i);
    SwapOutMultiset(s.sleeping, i);
    SwapOutIn(s.sleeping, i);
    assert multiset(s.sleeping)[p] >= 1;
    Once(s, i);
    forall q ensures q in out[i..] <==> q in s.sleeping[i..] && q != p {
      SwappedTail(s.sleeping, i, q);
    }
    MoveOne(multiset(s.ready), multiset(s.sleeping), p);
    assert multiset(s.ready + [p]) == multiset(s.ready) + multiset{p};
  }

  lemma MoveOne(x: multiset<nat>, y: multiset<nat>, p: nat)
    requires p in y
    ensures x + multiset{p} + (y - multiset{p}) == x + y
  {
  }

  /** From position i on, swapping out entry i leaves the others. */
  lemma SwappedTail(list: seq<nat>, i: nat, q: nat)
    requires i < |list| && list[i] !in list[i + 1..]
    ensures i <= |SwapOut(list, i)| && (q in SwapOut(list, i)[i..] <==> q in list[i..] && q != list[i])
  {
    var out, n := SwapOut(list, i), |list| - 1;
    if q in out[i..] {
      var k :| i <= k < n && out[k] == q;
      assert q == if k == i then list[n] else list[k];
      assert list[i + 1..][if k == i then n - i - 1 else k - i - 1] == q;
    }
    if q in list[i..] && q != list[i] {
      var k :| i <= k <= n && list[k] == q;
      assert q == if k == n then out[i] else out[k];
    }
  }

  lemma TickWoken(s: State, s2: State, t: State, i: nat)
    requires SleepReady(s) && i < |s.sleeping|
    requires var p := s.sleeping[i];
             var s1 := s.(procs := s.procs[p := s.procs[p].(sleepTicks := s.procs[p].sleepTicks - 1)]);
             s.procs[p].sleepTicks <= 1 && s2 == Add(s1.(sleeping := SwapOut(s.sleeping, i)), p)
    requires i <= |s2.sleeping| && Ticked(s2, t, i)
    ensures Ticked(s, t, i)
  {
    hide SwapOut, TickedProc;
    var p := s.sleeping[i];
    Woken(s, i);
    Once(s, i);
    assert s.sleeping[i..][0] == p;
    assert t.ready[|s.ready|] == p;
    assert (multiset(s.ready) + multiset(s.sleeping))[p] <= 1;
    OneList(t.ready, t.sleeping, p);
    forall q | q in s.procs ensures TickedProc(s, t, i, q) {
      assert TickedProc(s2, t, i, q);
      assert Due(s2, i, q) <==> Due(s, i, q) && q != p;
      TickWokenOne(s, s2, t, i, q);
    }
  }

  lemma TickWokenOne(s: State, s2: State, t: State, i: nat, q: nat)
    requires i < |s.sleeping| && i <= |s2.sleeping| && s.sleeping[i] in s.procs && q in s.procs && q in s2.procs && q in t.procs
    requires var p := s.sleeping[i];
      && (q == p ==> s2.procs[p] == s.procs[p].(sleepTicks := s.procs[p].sleepTicks - 1, vruntime := s.gmin))
      && (q != p ==> s2.procs[q] == s.procs[q])
      && (Due(s2, i, q) <==> Due(s, i, q) && q != p) && Due(s, i, p)
      && s.procs[p].sleepTicks <= 1 && p in t.ready && p !in t.sleeping && s2.gmin == s.gmin
    requires TickedProc(s2, t, i, q)
    ensures TickedProc(s, t, i, q)
  {
    hide Due;
  }

  // ----- whole calls

  ghost predicate Legal(s: State) {
    && (forall p :: p in s.ready ==> p in s.procs)
    && (forall p :: p in s.sleeping ==> p in s.procs)
    && (forall p :: p in s.procs ==> s.procs[p].nice < 1024)
  }

  /** scheduler_tick. */
  function Tick(s: State): State
    requires Legal(s)
  {
    PayFacts(s);
    TickSleepers(Pay(s), 0)
  }

  /** The choice made on a timer interrupt. */
  function Pick(s: State): State
    requires Known(s)
  {
    s.(current := Some(Next(s)))
  }

  /** A timer interrupt, or a process yielding: a tick, then a pick. */
  function Yield(s: State): State
    requires Inv(s) || AlmostInv(s)
  {
    LegalOf(s);
    TickKnown(s);
    Pick(Tick(s))
  }

  /** The invariant without the running process being in the ready list: it has just left it. */
  ghost predicate AlmostInv(s: State) {
    TableOk(s) && Conserved(s) && Members(s) && MinOk(s) && SleepersOk(s)
  }

  lemma LegalOf(s: State)
    requires AlmostInv(s) || Inv(s)
    ensures Legal(s) && Known(s) && SleepReady(s)
  {
    forall p | p in s.ready || p in s.sleeping ensures p in s.procs {
      ListedIn(s, p);
    }
    ListsHaveRoom(s);
    assert |Listed(s)| == |s.ready| + |s.sleeping| + |InQueues(s.queues)|;
    forall p ensures (multiset(s.ready) + multiset(s.sleeping))[p] <= 1 {
      assert Listed(s)[p] == multiset(s.started)[p];
    }
    assert |multiset(s.started)| == |s.started|;
    FewProcesses(s);
    SubsetSize(s.started, s.procs.Keys - {s.idle});
  }

  lemma PayFacts(s: State)
    requires Legal(s)
    ensures var t := Pay(s);
            && t.procs.Keys == s.procs.Keys && t == s.(procs := t.procs, gmin := t.gmin)
            && forall p :: p in s.procs ==>
                 t.procs[p] == if Running(s) && p == s.current.value then s.procs[p].(vruntime := s.procs[p].vruntime + Charge(s.procs[p].nice)) else s.procs[p]
  {
    hide Charge;
  }

  lemma PayReady(s: State)
    requires SleepReady(s) && Legal(s)
    ensures SleepReady(Pay(s))
  {
    PayFacts(s);
  }

  lemma TickKnown(s: State)
    requires Legal(s) && SleepReady(s)
    ensures Known(Tick(s)) && Ticked(Pay(s), Tick(s), 0)
  {
    hide TickSleepers, Pay;
    PayFacts(s);
    PayReady(s);
    TickEach(Pay(s), 0);
    var t := Tick(s);
    forall p | p in t.ready ensures p in t.procs {
      assert p in multiset(t.ready) + multiset(t.sleeping);
      assert p in multiset(s.ready) + multiset(s.sleeping);
    }
  }

  // ----- what a tick keeps

  lemma PayKeeps(s: State)
    requires AlmostInv(s) && Legal(s)
    ensures AlmostInv(Pay(s)) && Pay(s).gmin >= s.gmin
  {
    hide Charge, Best, InQueues, Pay, UpdateMin;
    LegalOf(s);
    PayFacts(s);
    var t := Pay(s);
    if Running(s) && s.current.value in s.procs && s.ready != [] {
      var q := PayLeast(s);
    } else {
      PayNothing(s);
    }
    assert Listed(t) == Listed(s);
  }

  /** After paying, the minimum is the least virtual run time of the ready list. */
  lemma PayLeast(s: State) returns (q: nat)
    requires Legal(s) && Running(s) && s.current.value in s.procs && s.ready != []
    ensures var t := Pay(s);
      && q in s.ready && q in t.procs && t.gmin == t.procs[q].vruntime
      && forall p :: p in s.ready && p in t.procs ==> t.gmin <= t.procs[p].vruntime
  {
    hide Charge, Best;
    var p := s.current.value;
    var s1 := s.(procs := s.procs[p := s.procs[p].(vruntime := s.procs[p].vruntime + Charge(s.procs[p].nice))]);
    BestReady(s1);
    q := Best(s1, |s1.ready|);
  }

  lemma PayNothing(s: State)
    requires Legal(s) && !(Running(s) && s.current.value in s.procs && s.ready != [])
    ensures Pay(s).gmin == s.gmin
  {
    hide Charge, Best;
  }

  lemma BestReady(s: State)
    requires Known(s) && s.ready != []
    ensures Best(s, |s.ready|) in s.ready
    ensures forall p :: p in s.ready ==> s.procs[Best(s, |s.ready|)].vruntime <= s.procs[p].vruntime
  {
    hide Best;
    var b := Best(s, |s.ready|);
    assert s.ready[..|s.ready|] == s.ready;
  }

  lemma SleepersKeep(s: State)
    requires AlmostInv(s) && Legal(s)
    ensures AlmostInv(TickSleepers(s, 0)) && TickSleepers(s, 0).gmin == s.gmin
  {
    hide TickSleepers, InQueues;
    LegalOf(s);
    TickEach(s, 0);
    var t := TickSleepers(s, 0);
    assert s.sleeping[0..] == s.sleeping;
    assert Listed(t) == Listed(s);
    forall p | p in s.procs ensures t.procs[p].pid == s.procs[p].pid && t.procs[p].nice == s.procs[p].nice {
      assert TickedProc(s, t, 0, p);
    }
    forall p | p in t.ready && p in t.procs ensures s.gmin <= t.procs[p].vruntime {
      assert TickedProc(s, t, 0, p);
      if !Due(s, 0, p) {
        assert p in multiset(s.ready) + multiset(s.sleeping);
        assert p in s.ready;
      }
    }
    forall p | p in t.sleeping && p in t.procs ensures t.procs[p].sleepTicks >= 1 {
      assert TickedProc(s, t, 0, p);
      if !Due(s, 0, p) {
        assert p in multiset(s.ready) + multiset(s.sleeping);
        ReadyStays(s, t, p);
      }
    }
  }

  lemma ReadyStays(s: State, t: State, p: nat)
    requires SleepReady(s) && Ticked(s, t, 0) && p in s.ready
    ensures p !in t.sleeping
  {
    assert (multiset(s.ready) + multiset(s.sleeping))[p] <= 1;
    assert p in t.ready;
    OneList(t.ready, t.sleeping, p);
  }

  /** A tick followed by a pick keeps every invariant, never lowers the minimum, and leaves the
      running process, unless it is the idle one, in the ready list. */
  lemma YieldKeeps(s: State)
    requires AlmostInv(s)
    ensures Inv(Yield(s)) && Yield(s).gmin >= s.gmin
  {
    hide TickSleepers, Pay, AlmostInv, Best;
    LegalOf(s);
    TickKnown(s);
    PayKeeps(s);
    LegalOf(Pay(s));
    SleepersKeep(Pay(s));
    PickKeeps(Tick(s));
  }

  lemma PickKeeps(s: State)
    requires AlmostInv(s) && Known(s)
    ensures Inv(Pick(s))
  {
    hide Best;
    if s.ready != [] {
      BestReady(s);
    }
    assert Listed(Pick(s)) == Listed(s);
  }

  // ----- operations

  datatype Op =
    | Create(addr: Option<nat>)
    | Start(p: nat)
    | Timer
    | Sleep(n: int)
    | Wait(q: nat)
    | WakeUp(q: nat)
    | WakeUpOne(q: nat)
    | Exit

  /** The lowest free pid; MAX_PROCESSES when all 255 are taken. */
  function FreePid(table: map<nat, nat>, from: nat): (pid: nat)
    requires from <= MAX_PROCESSES
    ensures from <= pid <= MAX_PROCESSES
    ensures pid < MAX_PROCESSES ==> pid !in table
    ensures forall k :: from <= k < pid ==> k in table
    decreases MAX_PROCESSES - from
  {
    if from == MAX_PROCESSES || from !in table then from else FreePid(table, from + 1)
  }

  /** A new process in memory at addr (None when memory ran out), registered but not yet started. */
  function CreateSpec(s: State, addr: Option<nat>): State {
    var pid := FreePid(s.table, 1);
    if pid == MAX_PROCESSES || addr.None? then s else
    s.(procs := s.procs[addr.value := Proc(pid, 0, 0, 0, Ready)], table := s.table[pid := addr.value])
  }

  function SetState(s: State, p: nat, t: Task): State
    requires p in s.procs
  {
    s.(procs := s.procs[p := s.procs[p].(state := t)])
  }

  function StartSpec(s: State, p: nat): State
    requires p in s.procs
  {
    Add(SetState(s, p, Ready), p).(started := s.started + {p})
  }

  /** scheduler_sleep: from the ready list to the sleep list. */
  function ToSleep(s: State, p: nat, n: int): State
    requires p in s.procs
  {
    var s1 := s.(procs := s.procs[p := s.procs[p].(sleepTicks := n)], ready := Without(s.ready, p));
    if |s1.sleeping| >= MAX_PROCESSES then s1 else s1.(sleeping := s1.sleeping + [p])
  }

  function ToQueue(s: State, p: nat, q: nat): State
    requires p in s.procs && q < |s.queues|
  {
    var s1 := SetState(s, p, Waiting).(ready := Without(s.ready, p));
    if |s.queues[q]| >= MAX_PROCESSES then s1 else s1.(queues := s.queues[q := s.queues[q] + [p]])
  }

  /** Every process of a list made ready, first to last. */
  function WakeAll(s: State, list: seq<nat>): State
    requires forall p :: p in list ==> p in s.procs
    decreases |list|
  {
    if list == [] then s else WakeAll(Add(SetState(s, list[0], Ready), list[0]), list[1..])
  }

  lemma WakeNext(s: State, list: seq<nat>)
    requires list != [] && forall p :: p in list ==> p in s.procs
    ensures SetState(s, list[0], Ready).procs.Keys == s.procs.Keys
    ensures Add(SetState(s, list[0], Ready), list[0]).procs.Keys == s.procs.Keys
    ensures Add(SetState(s, list[0], Ready), list[0]).queues == s.queues
    ensures WakeAll(s, list) == WakeAll(Add(SetState(s, list[0], Ready), list[0]), list[1..])
  {
  }

  lemma WakeDone(s: State)
    ensures WakeAll(s, []) == s
  {
  }

  function WakeUpSpec(s: State, q: nat): State
    requires q < |s.queues| && forall p :: p in s.queues[q] ==> p in s.procs
  {
    WakeAll(s, s.queues[q]).(queues := s.queues[q := []])
  }

  function WakeUpOneSpec(s: State, q: nat): State
    requires q < |s.queues| && forall p :: p in s.queues[q] ==> p in s.procs
  {
    if s.queues[q] == [] then s else
    var p := s.queues[q][0];
    Add(SetState(s, p, Ready).(queues := s.queues[q := s.queues[q][1..]]), p)
  }

  /** The running process leaves every scheduler list and the process table; another one is picked. */
  function ExitSpec(s: State): State
    requires Running(s) && s.current.value in s.procs
  {
    var p := s.current.value;
    s.(ready := Without(s.ready, p), sleeping := Without(s.sleeping, p), current := None,
       table := s.table - {s.procs[p].pid}, procs := s.procs - {p}, started := s.started - {p})
  }

  /** What a caller may do: create at an unused address; start a registered, unstarted process once;
      sleep, wait and exit only as a running process that is not the idle one. */
  ghost predicate Allowed(s: State, op: Op) {
    match op
    case Create(addr) => addr.Some? ==> addr.value !in s.procs
    case Start(p) => p in s.procs && p != s.idle && p !in s.started
    case Sleep(n) => n > 0 ==> Running(s)
    case Wait(q) => Running(s) && q < |s.queues|
    case WakeUp(q) => q < |s.queues|
    case WakeUpOne(q) => q < |s.queues|
    case Exit => Running(s)
    case Timer => true
  }

  lemma QueueMembers(s: State, q: nat)
    requires Inv(s) && q < |s.queues|
    ensures forall p :: p in s.queues[q] ==> p in s.procs
  {
    QueueSize(s.queues, q);
    forall p | p in s.queues[q] ensures p in s.procs {
      ListedIn(s, p);
    }
  }

  lemma RunningKnown(s: State)
    requires Inv(s) && Running(s)
    ensures s.current.value in s.procs && s.current.value in s.ready && s.current.value in s.started
  {
    ListedIn(s, s.current.value);
  }

  function Apply(s: State, op: Op): State
    requires Inv(s) && Allowed(s, op)
  {
    match op
    case Create(addr) => CreateSpec(s, addr)
    case Start(p) => StartSpec(s, p)
    case Timer => Yield(s)
    case Sleep(n) =>
      if n <= 0 then s else
      RunningKnown(s);
      SleepAlmost(s, n);
      Yield(ToSleep(s, s.current.value, n))
    case Wait(q) =>
      RunningKnown(s);
      WaitAlmost(s, q);
      Yield(ToQueue(s, s.current.value, q))
    case WakeUp(q) =>
      QueueMembers(s, q);
      WakeUpSpec(s, q)
    case WakeUpOne(q) =>
      QueueMembers(s, q);
      WakeUpOneSpec(s, q)
    case Exit =>
      RunningKnown(s);
      ExitKnown(s);
      Pick(ExitSpec(s))
  }

  lemma ApplyWakeUp(s: State, q: nat)
    requires Inv(s) && Allowed(s, WakeUp(q))
    ensures forall p :: p in s.queues[q] ==> p in s.procs
    ensures Apply(s, WakeUp(q)) == WakeUpSpec(s, q)
  {
    hide Inv, WakeUpSpec;
    QueueMembers(s, q);
  }

  // ----- every operation keeps the invariant

  lemma WithoutIn(list: seq<nat>, p: nat)
    ensures forall q :: q in Without(list, p) ==> q in list
    ensures |Without(list, p)| <= |list|
  {
    var i := Index(list, p);
    if i < |list| {
      SwapOutIn(list, i);
    }
  }

  lemma Single(s: State, p: nat)
    requires Conserved(s)
    ensures multiset(s.ready)[p] + multiset(s.sleeping)[p] + InQueues(s.queues)[p] == if p in s.started then 1 else 0
  {
    assert Listed(s)[p] == multiset(s.started)[p];
  }

  /** A process that has just put itself to sleep is asleep, and the state is as it should be. */
  lemma SleepAlmost(s: State, n: int)
    requires Inv(s) && Running(s) && n > 0 && s.current.value in s.procs
    ensures AlmostInv(ToSleep(s, s.current.value, n))
    ensures s.current.value in ToSleep(s, s.current.value, n).sleeping
  {
    hide InQueues, Index, Without, Listed, TableOk, Members, MinOk, SleepersOk;
    var p := s.current.value;
    RunningKnown(s);
    ListsHaveRoom(s);
    WithoutIn(s.ready, p);
    SleepListed(s, n);
    SleepParts(s, p, n);
    assert ToSleep(s, p, n).sleeping[|s.sleeping|] == p;
  }

  lemma SleepParts(s: State, p: nat, n: int)
    requires TableOk(s) && Members(s) && MinOk(s) && SleepersOk(s)
    requires p in s.procs && n > 0 && |s.sleeping| < MAX_PROCESSES
    ensures var t := ToSleep(s, p, n); TableOk(t) && Members(t) && MinOk(t) && SleepersOk(t)
  {
    hide Index, Without;
    WithoutIn(s.ready, p);
  }

  lemma SleepListed(s: State, n: int)
    requires Inv(s) && Running(s) && s.current.value in s.procs && |s.sleeping| < MAX_PROCESSES
    ensures Listed(ToSleep(s, s.current.value, n)) == Listed(s)
  {
    hide InQueues, Index, Without, TableOk, Members, MinOk, SleepersOk;
    var p := s.current.value;
    RunningKnown(s);
    WithoutMultiset(s.ready, p);
    assert p in multiset(s.ready);
    assert multiset(s.sleeping + [p]) == multiset(s.sleeping) + multiset{p};
    MoveAlong(multiset(s.ready), multiset(s.sleeping), InQueues(s.queues), p);
  }

  lemma MoveAlong(x: multiset<nat>, y: multiset<nat>, z: multiset<nat>, p: nat)
    requires p in x
    ensures (x - multiset{p}) + (y + multiset{p}) + z == x + y + z
  {
  }

  lemma MoveOver(x: multiset<nat>, y: multiset<nat>, z: multiset<nat>, p: nat)
    requires p in x
    ensures (x - multiset{p}) + y + (z + multiset{p}) == x + y + z
  {
  }

  lemma WaitListed(s: State, q: nat)
    requires Inv(s) && Running(s) && q < |s.queues| && s.current.value in s.procs && |s.queues[q]| < MAX_PROCESSES
    ensures Listed(ToQueue(s, s.current.value, q)) == Listed(s)
  {
    hide InQueues, Index, Without;
    var p := s.current.value;
    RunningKnown(s);
    WithoutMultiset(s.ready, p);
    assert p in multiset(s.ready);
    QueueUpdated(s.queues, q, s.queues[q] + [p]);
    assert multiset(s.queues[q] + [p]) == multiset(s.queues[q]) + multiset{p};
    PutOn(InQueues(s.queues), multiset(s.queues[q]), p);
    MoveOver(multiset(s.ready), multiset(s.sleeping), InQueues(s.queues), p);
  }

  lemma PutOn(all: multiset<nat>, a: multiset<nat>, p: nat)
    requires a <= all
    ensures all - a + (a + multiset{p}) == all + multiset{p}
  {
  }

  lemma WaitAlmost(s: State, q: nat)
    requires Inv(s) && Running(s) && q < |s.queues| && s.current.value in s.procs
    ensures AlmostInv(ToQueue(s, s.current.value, q))
    ensures ToQueue(s, s.current.value, q).queues[q] == s.queues[q] + [s.current.value]
  {
    hide InQueues, Index, Without, Listed, TableOk, Members, MinOk, SleepersOk;
    var p := s.current.value;
    RunningKnown(s);
    ListsHaveRoom(s);
    WithoutIn(s.ready, p);
    WaitListed(s, q);
    WaitParts(s, p, q);
  }

  lemma WaitParts(s: State, p: nat, q: nat)
    requires TableOk(s) && Members(s) && MinOk(s) && SleepersOk(s)
    requires p in s.procs && q < |s.queues| && |s.queues[q]| < MAX_PROCESSES
    ensures var t := ToQueue(s, p, q); TableOk(t) && Members(t) && MinOk(t) && SleepersOk(t)
  {
    hide Index, Without;
    WithoutIn(s.ready, p);
  }

  lemma PutBack(m: multiset<nat>, p: nat)
    requires p in m
    ensures m - multiset{p} + multiset{p} == m
  {
  }

  lemma TakeHead(all: multiset<nat>, a: multiset<nat>, b: multiset<nat>, p: nat)
    requires a <= all && a == multiset{p} + b
    ensures all - a + b == all - multiset{p} && p in all
  {
    assert a[p] >= 1;
    forall x ensures (all - a + b)[x] == (all - multiset{p})[x] {
      assert a[x] == (if x == p then 1 else 0) + b[x];
      assert a[x] <= all[x];
    }
  }

  lemma TakeLast(x: multiset<nat>, y: multiset<nat>, p: nat)
    requires p in y
    ensures x + (y - multiset{p}) == x + y - multiset{p}
  {
  }

  lemma TakeFirst(x: multiset<nat>, y: multiset<nat>, p: nat)
    requires p in x
    ensures (x - multiset{p}) + y == x + y - multiset{p}
  {
  }

  lemma ReadyGrows(s: State, t: State, p: nat)
    requires t.ready == s.ready + [p] && t.sleeping == s.sleeping && t.queues == s.queues
    ensures Listed(t) == Listed(s) + multiset{p}
  {
    hide InQueues;
    assert multiset(t.ready) == multiset(s.ready) + multiset{p};
  }

  /** A listed-nowhere process made ready. */
  lemma AddKeeps(s: State, p: nat)
    requires TableOk(s) && Members(s) && MinOk(s) && SleepersOk(s) && CurrentOk(s)
    requires p in s.procs && p in s.started && Listed(s) == multiset(s.started) - multiset{p}
    ensures Inv(Add(s, p)) && p in Add(s, p).ready && Add(s, p).gmin == s.gmin
  {
    hide InQueues, Listed, TableOk, Members, MinOk, SleepersOk, CurrentOk;
    RoomFor(s, p);
    AddOk(s, p);
    ReadyGrows(s, Add(s, p), p);
    PutBack(multiset(s.started), p);
  }

  /** Joining the ready list keeps everything but the count of the lists. */
  lemma AddOk(s: State, p: nat)
    requires TableOk(s) && Members(s) && MinOk(s) && SleepersOk(s) && CurrentOk(s)
    requires p in s.procs && |s.ready| < MAX_PROCESSES
    ensures var t := Add(s, p);
      && TableOk(t) && Members(t) && MinOk(t) && SleepersOk(t) && CurrentOk(t) && p in t.ready
  {
    var t := Add(s, p);
    assert t.ready[|s.ready|] == p;
  }

  lemma SetStateOk(s: State, p: nat, k: Task)
    requires TableOk(s) && Members(s) && MinOk(s) && SleepersOk(s) && CurrentOk(s) && p in s.procs
    ensures var t := SetState(s, p, k);
      && TableOk(t) && Members(t) && MinOk(t) && SleepersOk(t) && CurrentOk(t)
  {
  }

  lemma HeadApart(list: seq<nat>)
    requires list != []
    ensures multiset(list) == multiset{list[0]} + multiset(list[1..])
  {
    assert list == [list[0]] + list[1..];
  }

  lemma MoveHead(all: multiset<nat>, p: nat, rest: multiset<nat>)
    ensures all + multiset{p} + rest == all + (multiset{p} + rest)
  {
  }

  lemma RoomFor(s: State, p: nat)
    requires TableOk(s) && Members(s) && p in s.started && Listed(s) == multiset(s.started) - multiset{p}
    ensures |s.ready| < MAX_PROCESSES
  {
    FewProcesses(s);
    SubsetSize(s.started, s.procs.Keys - {s.idle});
    assert |Listed(s)| == |s.ready| + |s.sleeping| + |InQueues(s.queues)|;
    assert |multiset(s.started)| == |s.started|;
  }

  lemma OneMore(a: set<nat>, p: nat)
    requires p !in a
    ensures multiset(a + {p}) - multiset{p} == multiset(a)
  {
  }

  lemma BeginsOk(s: State, t: State, p: nat)
    requires TableOk(t) && Members(t) && MinOk(t) && SleepersOk(t) && CurrentOk(t)
    requires p in s.procs && p != s.idle && t == SetState(s, p, Ready)
    ensures var u := t.(started := s.started + {p});
      && TableOk(u) && Members(u) && MinOk(u) && SleepersOk(u) && CurrentOk(u) && Listed(u) == Listed(s)
  {
    hide InQueues;
  }

  lemma StartKeeps(s: State, p: nat)
    requires Inv(s) && Allowed(s, Start(p))
    ensures Inv(StartSpec(s, p)) && p in StartSpec(s, p).ready
  {
    hide InQueues, TableOk, SleepersOk, MinOk, Listed, SetState;
    var s1 := SetState(s, p, Ready).(started := s.started + {p});
    OneMore(s.started, p);
    SetStateOk(s, p, Ready);
    BeginsOk(s, SetState(s, p, Ready), p);
    AddKeeps(s1, p);
    assert Add(s1, p) == StartSpec(s, p);
  }

  lemma CreateKeeps(s: State, addr: Option<nat>)
    requires Inv(s) && Allowed(s, Create(addr))
    ensures Inv(CreateSpec(s, addr))
  {
    hide InQueues, TableOk;
    var t := CreateSpec(s, addr);
    assert Listed(t) == Listed(s);
    if t != s {
      CreateTable(s, addr);
      forall r | r in t.ready ensures r in s.procs {
        ListedIn(s, r);
      }
      forall r | r in t.sleeping ensures r in s.procs {
        ListedIn(s, r);
      }
    }
  }

  lemma CreateTable(s: State, addr: Option<nat>)
    requires TableOk(s) && Allowed(s, Create(addr))
    ensures TableOk(CreateSpec(s, addr))
  {
    hide FreePid;
  }

  lemma {:induction false} WakeAllKeeps(s: State, list: seq<nat>)
    requires TableOk(s) && Members(s) && MinOk(s) && SleepersOk(s) && CurrentOk(s)
    requires (forall p :: p in list ==> p in s.procs) && Listed(s) + multiset(list) == multiset(s.started)
    ensures Inv(WakeAll(s, list)) && WakeAll(s, list).gmin == s.gmin
    ensures forall p :: p in list ==> p in WakeAll(s, list).ready
    ensures s.ready <= WakeAll(s, list).ready && WakeAll(s, list).queues == s.queues
    decreases |list|
  {
    hide InQueues, TableOk, Members, MinOk, SleepersOk, CurrentOk, Listed;
    if list == [] {
      assert Listed(s) + multiset(list) == Listed(s);
    } else {
      var p := list[0];
      RoomForList(s, list);
      WakeFirst(s, list);
      var t := Add(SetState(s, p, Ready), p);
      WakeAllKeeps(t, list[1..]);
      assert t.ready[|s.ready|] == p;
      assert list == [p] + list[1..];
    }
  }

  /** The first of a list of unlisted processes made ready. */
  lemma WakeFirst(s: State, list: seq<nat>)
    requires TableOk(s) && Members(s) && MinOk(s) && SleepersOk(s) && CurrentOk(s)
    requires list != [] && (forall p :: p in list ==> p in s.procs) && Listed(s) + multiset(list) == multiset(s.started)
    requires |s.ready| < MAX_PROCESSES
    ensures var t := Add(SetState(s, list[0], Ready), list[0]);
            && TableOk(t) && Members(t) && MinOk(t) && SleepersOk(t) && CurrentOk(t)
            && Listed(t) + multiset(list[1..]) == multiset(t.started)
  {
    hide InQueues, Listed, TableOk, Members, MinOk, SleepersOk, CurrentOk;
    var p := list[0];
    SetStateOk(s, p, Ready);
    AddOk(SetState(s, p, Ready), p);
    ReadyGrows(s, Add(SetState(s, p, Ready), p), p);
    HeadApart(list);
    MoveHead(Listed(s), p, multiset(list[1..]));
  }

  lemma RoomForList(s: State, list: seq<nat>)
    requires TableOk(s) && Members(s) && Listed(s) + multiset(list) == multiset(s.started)
    ensures |s.ready| < MAX_PROCESSES
  {
    hide InQueues;
    FewProcesses(s);
    SubsetSize(s.started, s.procs.Keys - {s.idle});
    assert |Listed(s) + multiset(list)| == |s.ready| + |s.sleeping| + |InQueues(s.queues)| + |list|;
    assert |multiset(s.started)| == |s.started|;
  }

  lemma {:induction false} WakeAllQueues(s: State, list: seq<nat>, queues: seq<seq<nat>>)
    requires forall p :: p in list ==> p in s.procs
    ensures WakeAll(s.(queues := queues), list) == WakeAll(s, list).(queues := queues)
    decreases |list|
  {
    if list != [] {
      WakeAllQueues(Add(SetState(s, list[0], Ready), list[0]), list[1..], queues);
    }
  }

  /** Waking a queue moves exactly its processes to the ready list and empties it. */
  lemma WakeUpKeeps(s: State, q: nat)
    requires Inv(s) && q < |s.queues| && forall p :: p in s.queues[q] ==> p in s.procs
    ensures Inv(WakeUpSpec(s, q)) && WakeUpSpec(s, q).queues == s.queues[q := []]
    ensures forall p :: p in s.queues[q] ==> p in WakeUpSpec(s, q).ready
  {
    hide InQueues;
    QueueUpdated(s.queues, q, []);
    var s1 := s.(queues := s.queues[q := []]);
    assert Listed(s1) + multiset(s.queues[q]) == multiset(s.started);
    WakeAllKeeps(s1, s.queues[q]);
    WakeAllQueues(s, s.queues[q], s.queues[q := []]);
  }

  /** Waking one takes the queue's first process, in order of arrival. */
  lemma WakeUpOneKeeps(s: State, q: nat)
    requires Inv(s) && q < |s.queues| && forall p :: p in s.queues[q] ==> p in s.procs
    ensures Inv(WakeUpOneSpec(s, q))
    ensures s.queues[q] != [] ==> s.queues[q][0] in WakeUpOneSpec(s, q).ready && WakeUpOneSpec(s, q).queues == s.queues[q := s.queues[q][1..]]
  {
    hide InQueues;
    if s.queues[q] != [] {
      var p := s.queues[q][0];
      QueueSize(s.queues, q);
      ListedIn(s, p);
      WakeHead(s, q);
      AddKeeps(SetState(s, p, Ready).(queues := s.queues[q := s.queues[q][1..]]), p);
    }
  }

  lemma QueuesApart(s: State, queues: seq<seq<nat>>)
    requires TableOk(s) && MinOk(s) && SleepersOk(s)
    ensures var t := s.(queues := queues); TableOk(t) && MinOk(t) && SleepersOk(t)
  {
  }

  lemma WakeHead(s: State, q: nat)
    requires Inv(s) && q < |s.queues| && s.queues[q] != [] && s.queues[q][0] in s.procs
    ensures var p := s.queues[q][0];
            var s1 := SetState(s, p, Ready).(queues := s.queues[q := s.queues[q][1..]]);
            && TableOk(s1) && Members(s1) && MinOk(s1) && SleepersOk(s1) && CurrentOk(s1)
            && Listed(s1) == multiset(s1.started) - multiset{p}
  {
    hide InQueues, TableOk, SleepersOk, MinOk;
    var list := s.queues[q];
    var p := list[0];
    HeadApart(list);
    SetStateOk(s, p, Ready);
    QueuesApart(SetState(s, p, Ready), s.queues[q := list[1..]]);
    QueueUpdated(s.queues, q, list[1..]);
    TakeHead(InQueues(s.queues), multiset(list), multiset(list[1..]), p);
    TakeLast(multiset(s.ready) + multiset(s.sleeping), InQueues(s.queues), p);
  }

  lemma ExitListed(s: State)
    requires Inv(s) && Running(s) && s.current.value in s.procs
    ensures Conserved(ExitSpec(s))
  {
    hide InQueues, Index, Without;
    var p := s.current.value;
    var t := ExitSpec(s);
    RunningKnown(s);
    Single(s, p);
    assert p in multiset(s.ready);
    WithoutMultiset(s.ready, p);
    WithoutMultiset(s.sleeping, p);
    assert multiset(t.sleeping) == multiset(s.sleeping);
    TakeFirst(multiset(s.ready), multiset(s.sleeping), p);
    TakeFirst(multiset(s.ready) + multiset(s.sleeping), InQueues(s.queues), p);
    assert multiset(t.started) == multiset(s.started) - multiset{p};
  }

  lemma ExitKnown(s: State)
    requires Inv(s) && Running(s) && s.current.value in s.procs
    ensures AlmostInv(ExitSpec(s)) && Known(ExitSpec(s)) && ExitSpec(s).gmin == s.gmin
  {
    hide InQueues, Index, Without, Listed;
    var p := s.current.value;
    var t := ExitSpec(s);
    ExitListed(s);
    WithoutIn(s.ready, p);
    WithoutIn(s.sleeping, p);
    forall r | r in t.procs ensures s.procs[r].pid != s.procs[p].pid {
      DifferentPids(s, p, r);
    }
    LegalOf(t);
  }

  /** After exit the process is in no list and its pid is free. */
  lemma ExitGone(s: State)
    requires Inv(s) && Running(s) && s.current.value in s.procs
    ensures var p, t := s.current.value, ExitSpec(s);
            p !in t.ready && p !in t.sleeping && p !in InQueues(t.queues) && p !in t.procs && s.procs[p].pid !in t.table
  {
    hide InQueues, Without;
    ExitKnown(s);
    Single(ExitSpec(s), s.current.value);
  }

  /** Every operation keeps all the invariants -- each started process in exactly one list exactly once,
      pids distinct, the minimum at most every ready process's run time -- and never lowers the
      minimum. */
  lemma StepKeeps(s: State, op: Op)
    requires Inv(s) && Allowed(s, op)
    ensures Inv(Apply(s, op)) && Apply(s, op).gmin >= s.gmin
  {
    hide Inv, AlmostInv, Yield, Pick, ToSleep, ToQueue, WakeUpSpec, ExitSpec;
    match op
    case Create(addr) => CreateStep(s, addr);
    case Start(p) => StartStep(s, p);
    case Timer =>
      InvAlmost(s);
      YieldKeeps(s);
    case Sleep(n) =>
      if n > 0 {
        RunningKnown(s);
        SleepAlmost(s, n);
        YieldKeeps(ToSleep(s, s.current.value, n));
        SameMin(s, n, 0);
      }
    case Wait(q) =>
      RunningKnown(s);
      WaitAlmost(s, q);
      YieldKeeps(ToQueue(s, s.current.value, q));
      SameMin(s, 0, q);
    case WakeUp(q) =>
      QueueMembers(s, q);
      WakeStep(s, q);
    case WakeUpOne(q) =>
      QueueMembers(s, q);
      WakeStep(s, q);
    case Exit =>
      RunningKnown(s);
      ExitKnown(s);
      PickKeeps(ExitSpec(s));
      PickMin(ExitSpec(s));
  }

  lemma InvAlmost(s: State)
    requires Inv(s)
    ensures AlmostInv(s)
  {
  }

  lemma CreateStep(s: State, addr: Option<nat>)
    requires Inv(s) && Allowed(s, Create(addr))
    ensures Inv(CreateSpec(s, addr)) && CreateSpec(s, addr).gmin == s.gmin
  {
    hide Inv;
    CreateKeeps(s, addr);
  }

  lemma StartStep(s: State, p: nat)
    requires Inv(s) && Allowed(s, Start(p))
    ensures Inv(StartSpec(s, p)) && StartSpec(s, p).gmin == s.gmin
  {
    hide Inv;
    StartKeeps(s, p);
  }

  lemma SameMin(s: State, n: int, q: nat)
    requires s.current.Some? && s.current.value in s.procs
    ensures ToSleep(s, s.current.value, n).gmin == s.gmin
    ensures q < |s.queues| ==> ToQueue(s, s.current.value, q).gmin == s.gmin
  {
  }

  lemma PickMin(s: State)
    requires Known(s)
    ensures Pick(s).gmin == s.gmin
  {
    hide Next;
  }

  lemma WakeStep(s: State, q: nat)
    requires Inv(s) && q < |s.queues| && forall p :: p in s.queues[q] ==> p in s.procs
    ensures Inv(WakeUpSpec(s, q)) && WakeUpSpec(s, q).gmin == s.gmin
    ensures Inv(WakeUpOneSpec(s, q)) && WakeUpOneSpec(s, q).gmin == s.gmin
  {
    hide Inv;
    WakeUpKeeps(s, q);
    WakeUpOneKeeps(s, q);
    WakeAllMin(s, s.queues[q]);
  }

  lemma {:induction false} WakeAllMin(s: State, list: seq<nat>)
    requires forall p :: p in list ==> p in s.procs
    ensures WakeAll(s, list).gmin == s.gmin
    decreases |list|
  {
    if list != [] {
      WakeAllMin(Add(SetState(s, list[0], Ready), list[0]), list[1..]);
    }
  }

  // ----- whole runs

  /** The states a list of calls leads through; a call the caller may not make ends the run. */
  ghost predicate RunAllowed(s: State, ops: seq<Op>)
    requires Inv(s)
    decreases |ops|
  {
    ops == [] || (Allowed(s, ops[0]) && (StepKeeps(s, ops[0]); RunAllowed(Apply(s, ops[0]), ops[1..])))
  }

  ghost function Runs(s: State, ops: seq<Op>): State
    requires Inv(s) && RunAllowed(s, ops)
    decreases |ops|
  {
    if ops == [] then s else
    StepKeeps(s, ops[0]);
    Runs(Apply(s, ops[0]), ops[1..])
  }

  /** In every run the invariants hold at the end and the minimum has not gone down. */
  lemma {:induction false} RunKeeps(s: State, ops: seq<Op>)
    requires Inv(s) && RunAllowed(s, ops)
    ensures Inv(Runs(s, ops)) && Runs(s, ops).gmin >= s.gmin
    decreases |ops|
  {
    hide Inv, Allowed, Apply;
    if ops != [] {
      StepKeeps(s, ops[0]);
      RunKeeps(Apply(s, ops[0]), ops[1..]);
    }
  }

  /** The system as it starts: one registered idle process, nothing started, n empty wait queues. */
  function Boot(idle: nat, n: nat): State {
    State(map[idle := Proc(1, 0, 0, 0, Ready)], map[1 := idle], [], [], seq(n, _ => []), None, idle, 0, {})
  }

  lemma BootInv(idle: nat, n: nat)
    ensures Inv(Boot(idle, n))
  {
    EmptyQueues(seq(n, _ => []));
  }

  lemma {:induction false} EmptyQueues(queues: seq<seq<nat>>)
    requires forall q :: 0 <= q < |queues| ==> queues[q] == []
    ensures InQueues(queues) == multiset{}
  {
    if queues != [] {
      EmptyQueues(queues[1..]);
    }
  }

  // ----- sleeping for n ticks

  predicate Ticks(op: Op) { op.Timer? || op.Wait? || (op.Sleep? && op.n > 0) }

  function TickCount(ops: seq<Op>): nat {
    if ops == [] then 0 else (if Ticks(ops[0]) then 1 else 0) + TickCount(ops[1..])
  }

  /** Asleep with n ticks to go. */
  predicate Asleep(s: State, p: nat, n: int) { p in s.sleeping && p in s.procs && s.procs[p].sleepTicks == n }

  lemma TickAsleep(s: State, p: nat, n: int)
    requires AlmostInv(s) && Asleep(s, p, n)
    ensures n > 1 ==> Asleep(Yield(s), p, n - 1)
    ensures n == 1 ==> p in Yield(s).ready && p !in Yield(s).sleeping
  {
    hide TickSleepers, Pay, Best, AlmostInv;
    LegalOf(s);
    TickKnown(s);
    PayFacts(s);
    var s1 := Pay(s);
    assert TickedProc(s1, Tick(s), 0, p);
    assert s1.sleeping[0..] == s1.sleeping;
    NotRunning(s, p);
  }

  lemma NotRunning(s: State, p: nat)
    requires Legal(s) && p in s.procs
    ensures Pay(s).procs[p].sleepTicks == s.procs[p].sleepTicks
  {
    PayFacts(s);
  }

  /** A sleeper is touched by nothing but ticks: each call without a tick leaves it as it is, each with
      one takes exactly one off, and it is made ready exactly when none is left. */
  lemma SleeperStep(s: State, op: Op, p: nat, n: int)
    requires Inv(s) && Allowed(s, op) && Asleep(s, p, n)
    ensures !Ticks(op) ==> Asleep(Apply(s, op), p, n)
    ensures Ticks(op) && n > 1 ==> Asleep(Apply(s, op), p, n - 1)
    ensures Ticks(op) && n == 1 ==> p in Apply(s, op).ready && p !in Apply(s, op).sleeping
  {
    hide Inv, AlmostInv, Yield, WakeUpSpec, ExitSpec, CreateSpec, StartSpec;
    match op
    case Create(addr) => StillAsleep(s, op, p);
    case Start(q) => StillAsleep(s, op, p);
    case Timer =>
      InvAlmost(s);
      TickAsleep(s, p, n);
    case Sleep(k) =>
      if k > 0 {
        RunningKnown(s);
        OtherThanRunning(s, p);
        SleepAlmost(s, k);
        TickAsleep(ToSleep(s, s.current.value, k), p, n);
      }
    case Wait(q) =>
      RunningKnown(s);
      OtherThanRunning(s, p);
      WaitAlmost(s, q);
      TickAsleep(ToQueue(s, s.current.value, q), p, n);
    case WakeUp(q) => StillAsleep(s, op, p);
    case WakeUpOne(q) => StillAsleep(s, op, p);
    case Exit => StillAsleep(s, op, p);
  }

  lemma OtherThanRunning(s: State, p: nat)
    requires Inv(s) && Running(s) && p in s.sleeping
    ensures p != s.current.value
  {
    hide InQueues;
    Single(s, p);
    RunningKnown(s);
  }

  lemma StillAsleep(s: State, op: Op, p: nat)
    requires Inv(s) && Allowed(s, op) && p in s.sleeping && p in s.procs
    requires op.Create? || op.Start? || op.WakeUp? || op.WakeUpOne? || op.Exit?
    ensures p in Apply(s, op).sleeping && p in Apply(s, op).procs && Apply(s, op).procs[p].sleepTicks == s.procs[p].sleepTicks
  {
    hide Inv, InQueues, Listed;
    match op
    case Create(addr) =>
    case Start(q) =>
    case WakeUp(q) =>
      QueueMembers(s, q);
      WakeAllElse(s, s.queues[q], p);
    case WakeUpOne(q) =>
      QueueMembers(s, q);
    case Exit =>
      RunningKnown(s);
      OtherThanRunning(s, p);
      ExitKnown(s);
      StaysIn(s.sleeping, s.current.value, p);
  }

  lemma StaysIn(list: seq<nat>, q: nat, p: nat)
    requires p in list && p != q
    ensures p in Without(list, q)
  {
    hide Without;
    WithoutMultiset(list, q);
    assert p in multiset(list);
    assert multiset(Without(list, q))[p] >= 1;
  }

  lemma {:induction false} WakeAllElse(s: State, list: seq<nat>, p: nat)
    requires (forall q :: q in list ==> q in s.procs) && p in s.procs
    ensures var t := WakeAll(s, list);
            t.sleeping == s.sleeping && p in t.procs && t.procs[p].sleepTicks == s.procs[p].sleepTicks
    decreases |list|
  {
    if list != [] {
      WakeAllElse(Add(SetState(s, list[0], Ready), list[0]), list[1..], p);
    }
  }

  /** A process asleep with n ticks to go is still asleep after fewer than n ticks, whatever else
      happens in between. */
  lemma {:induction false} SleepsOn(s: State, ops: seq<Op>, p: nat, n: int)
    requires Inv(s) && RunAllowed(s, ops) && Asleep(s, p, n) && TickCount(ops) < n
    ensures Asleep(Runs(s, ops), p, n - TickCount(ops))
    decreases |ops|
  {
    hide Inv, Allowed, Apply;
    if ops != [] {
      StepKeeps(s, ops[0]);
      SleeperStep(s, ops[0], p, n);
      SleepsOn(Apply(s, ops[0]), ops[1..], p, if Ticks(ops[0]) then n - 1 else n);
    }
  }

  /** A run is its beginning followed by its last call. */
  lemma {:induction false} RunsLast(s: State, ops: seq<Op>)
    requires Inv(s) && RunAllowed(s, ops) && ops != []
    ensures var n := |ops| - 1;
            && RunAllowed(s, ops[..n]) && Inv(Runs(s, ops[..n])) && Allowed(Runs(s, ops[..n]), ops[n])
            && Runs(s, ops) == Apply(Runs(s, ops[..n]), ops[n])
            && TickCount(ops) == TickCount(ops[..n]) + if Ticks(ops[n]) then 1 else 0
    decreases |ops|
  {
    hide Inv, Allowed, Apply, Ticks;
    var n := |ops| - 1;
    StepKeeps(s, ops[0]);
    if n > 0 {
      RunsLast(Apply(s, ops[0]), ops[1..]);
      assert ops[1..][..n - 1] == ops[..n][1..];
      assert ops[..n][0] == ops[0];
    } else {
      assert ops[..0] == [] && ops[1..] == [];
    }
  }

  lemma SleepFirst(s: State, n: int)
    requires Inv(s) && Running(s) && n >= 1
    ensures n > 1 ==> Asleep(Apply(s, Sleep(n)), s.current.value, n - 1)
    ensures n == 1 ==> s.current.value in Apply(s, Sleep(n)).ready
  {
    hide Inv, AlmostInv, Yield;
    RunningKnown(s);
    SleepAlmost(s, n);
    TickAsleep(ToSleep(s, s.current.value, n), s.current.value, n);
  }

  /** A run that begins with a process putting itself to sleep for n ticks, that call's own tick
      included: the process is asleep until the n-th tick, and ready at it. */
  lemma SleepExact(s: State, n: int, ops: seq<Op>)
    requires Inv(s) && Running(s) && n >= 1 && ops != [] && ops[0] == Sleep(n) && RunAllowed(s, ops)
    ensures TickCount(ops) < n ==> Asleep(Runs(s, ops), s.current.value, n - TickCount(ops))
    ensures TickCount(ops) == n && Ticks(ops[|ops| - 1]) ==> s.current.value in Runs(s, ops).ready
  {
    hide Inv, Allowed, Apply;
    SleepFirst(s, n);
    StepKeeps(s, ops[0]);
    var p, s1, tail := s.current.value, Apply(s, ops[0]), ops[1..];
    if TickCount(ops) < n {
      SleepsOn(s1, tail, p, n - 1);
    }
    if TickCount(ops) == n && Ticks(ops[|ops| - 1]) && |ops| > 1 {
      RunsLast(s1, tail);
      SleepsOn(s1, tail[..|tail| - 1], p, n - 1);
      SleeperStep(Runs(s1, tail[..|tail| - 1]), tail[|tail| - 1], p, 1);
    }
  }

  // ----- fairness

  /** Every ready process is within c of the minimum, no charge is more than c, and the running process
      is at the minimum; while none runs, all are. */
  ghost predicate Close(s: State, c: nat) {
    && ChargesWithin(s, c)
    && (forall p :: p in s.ready && p in s.procs ==> s.procs[p].vruntime <= s.gmin + c)
    && (if Running(s) then s.current.value in s.procs && s.procs[s.current.value].vruntime == s.gmin
        else forall p :: p in s.ready && p in s.procs ==> s.procs[p].vruntime == s.gmin)
  }

  ghost predicate ChargesWithin(s: State, c: nat) {
    forall p :: p in s.procs ==> s.procs[p].nice < 1024 && Charge(s.procs[p].nice) <= c
  }

  /** The same in the middle of a tick: some ready process is at the minimum. */
  ghost predicate Level(s: State, c: nat) {
    && ChargesWithin(s, c) && Known(s)
    && (forall p :: p in s.ready ==> s.gmin <= s.procs[p].vruntime <= s.gmin + c)
    && (s.ready != [] ==> exists p :: p in s.ready && s.procs[p].vruntime == s.gmin)
  }

  lemma PayLevel(s: State, c: nat)
    requires AlmostInv(s) && Legal(s) && Close(s, c)
    ensures Level(Pay(s), c)
  {
    hide InQueues, Charge, Best, Pay, Listed, TableOk;
    PayFacts(s);
    PayKeeps(s);
    var t := Pay(s);
    if Running(s) && s.ready != [] {
      var q := PayLeast(s);
    } else if s.ready != [] {
      PayNothing(s);
      assert s.ready[0] in s.ready && t.procs[s.ready[0]].vruntime == t.gmin;
    }
  }

  lemma SleepersLevel(s: State, c: nat)
    requires SleepReady(s) && Legal(s) && Level(s, c)
    ensures Level(TickSleepers(s, 0), c)
  {
    hide TickSleepers, Charge;
    TickEach(s, 0);
    var t := TickSleepers(s, 0);
    assert s.sleeping[0..] == s.sleeping;
    forall p | p in t.ready ensures p in s.procs && (p !in s.ready ==> t.procs[p].vruntime == s.gmin) {
      assert p in multiset(t.ready) + multiset(t.sleeping);
      assert p in multiset(s.ready) + multiset(s.sleeping);
      assert TickedProc(s, t, 0, p);
      if p !in s.ready {
        assert Due(s, 0, p);
      }
    }
    forall p | p in s.ready ensures p in t.ready && t.procs[p].vruntime == s.procs[p].vruntime {
      assert TickedProc(s, t, 0, p);
      assert (multiset(s.ready) + multiset(s.sleeping))[p] <= 1;
      OneList(s.ready, s.sleeping, p);
    }
    forall p | p in s.procs ensures t.procs[p].nice == s.procs[p].nice {
      assert TickedProc(s, t, 0, p);
    }
    if s.ready == [] && t.ready != [] {
      assert t.ready[0] in t.ready;
    }
  }

  lemma PickClose(s: State, c: nat)
    requires AlmostInv(s) && Level(s, c)
    ensures Close(Pick(s), c)
  {
    hide InQueues, Charge, Best;
    if s.ready != [] {
      BestReady(s);
      ListedIn(s, Best(s, |s.ready|));
    }
  }

  lemma YieldClose(s: State, c: nat)
    requires AlmostInv(s) && Close(s, c)
    ensures Close(Yield(s), c)
  {
    hide AlmostInv, Close, Level, TickSleepers, Pay, Legal, Pick;
    LegalOf(s);
    PayKeeps(s);
    PayLevel(s, c);
    LegalOf(Pay(s));
    SleepersKeep(Pay(s));
    SleepersLevel(Pay(s), c);
    PickClose(Tick(s), c);
  }

  lemma AddClose(s: State, p: nat, t: Task, c: nat)
    requires p in s.procs && Close(s, c)
    ensures Close(Add(SetState(s, p, t), p), c)
  {
    hide Charge;
  }

  lemma {:induction false} WakeAllClose(s: State, list: seq<nat>, c: nat)
    requires (forall p :: p in list ==> p in s.procs) && Close(s, c)
    ensures Close(WakeAll(s, list), c)
    decreases |list|
  {
    hide Close;
    if list != [] {
      AddClose(s, list[0], Ready, c);
      WakeAllClose(Add(SetState(s, list[0], Ready), list[0]), list[1..], c);
    }
  }

  /** Every call but exit keeps ready processes within one charge of the minimum. */
  lemma StepClose(s: State, op: Op, c: nat)
    requires Inv(s) && Allowed(s, op) && !op.Exit? && Close(s, c) && c >= 1
    ensures Close(Apply(s, op), c)
  {
    hide Inv, AlmostInv, Yield, WakeUpSpec, CreateSpec, StartSpec, Close, WakeUpOneSpec;
    match op
    case Create(addr) => CreateClose(s, addr, c);
    case Start(p) => StartClose(s, p, c);
    case Timer =>
      InvAlmost(s);
      YieldClose(s, c);
    case Sleep(n) =>
      if n > 0 {
        RunningKnown(s);
        SleepAlmost(s, n);
        LeaveClose(s, n, 0, c);
        YieldClose(ToSleep(s, s.current.value, n), c);
      }
    case Wait(q) =>
      RunningKnown(s);
      WaitAlmost(s, q);
      LeaveClose(s, 0, q, c);
      YieldClose(ToQueue(s, s.current.value, q), c);
    case WakeUp(q) =>
      QueueMembers(s, q);
      WakeClose(s, q, c);
    case WakeUpOne(q) =>
      QueueMembers(s, q);
      WakeClose(s, q, c);
  }

  lemma CreateClose(s: State, addr: Option<nat>, c: nat)
    requires Inv(s) && Allowed(s, Create(addr)) && Close(s, c) && c >= 1
    ensures Close(CreateSpec(s, addr), c)
  {
    hide InQueues;
    ChargeBounds(0);
    forall p | p in s.ready ensures p in s.procs {
      ListedIn(s, p);
    }
  }

  lemma StartClose(s: State, p: nat, c: nat)
    requires p in s.procs && Close(s, c)
    ensures Close(StartSpec(s, p), c)
  {
    hide Charge;
    AddClose(s, p, Ready, c);
  }

  lemma LeaveClose(s: State, n: int, q: nat, c: nat)
    requires Running(s) && s.current.value in s.procs && Close(s, c)
    ensures Close(ToSleep(s, s.current.value, n), c)
    ensures q < |s.queues| ==> Close(ToQueue(s, s.current.value, q), c)
  {
    hide Charge, Without;
    WithoutIn(s.ready, s.current.value);
  }

  lemma WakeClose(s: State, q: nat, c: nat)
    requires q < |s.queues| && (forall p :: p in s.queues[q] ==> p in s.procs) && Close(s, c)
    ensures Close(WakeUpSpec(s, q), c) && Close(WakeUpOneSpec(s, q), c)
  {
    hide Close, WakeAll;
    WakeAllClose(s, s.queues[q], c);
    var w := WakeAll(s, s.queues[q]);
    CloseQueues(w, s.queues[q := []], c);
    if s.queues[q] != [] {
      var s1 := s.(queues := s.queues[q := s.queues[q][1..]]);
      CloseQueues(s, s1.queues, c);
      AddClose(s1, s.queues[q][0], Ready, c);
    }
  }

  lemma CloseQueues(s: State, queues: seq<seq<nat>>, c: nat)
    requires Close(s, c)
    ensures Close(s.(queues := queues), c)
  {
    hide Charge;
  }

  predicate NoExit(ops: seq<Op>) { forall k :: 0 <= k < |ops| ==> !ops[k].Exit? }

  /** In every run without exits the ready processes stay within one charge of the minimum. */
  lemma {:induction false} RunClose(s: State, ops: seq<Op>, c: nat)
    requires Inv(s) && RunAllowed(s, ops) && NoExit(ops) && Close(s, c) && c >= 1
    ensures Close(Runs(s, ops), c)
    decreases |ops|
  {
    hide Inv, Allowed, Apply, Close;
    if ops != [] {
      StepKeeps(s, ops[0]);
      StepClose(s, ops[0], c);
      RunClose(Apply(s, ops[0]), ops[1..], c);
    }
  }

  lemma BootClose(idle: nat, n: nat)
    ensures Close(Boot(idle, n), 1)
  {
    ChargeBounds(0);
  }

  // ----- ticks charged

  /** Ticks during which p is the running process. */
  ghost function Paid(s: State, ops: seq<Op>, p: nat): nat
    requires Inv(s) && RunAllowed(s, ops)
    decreases |ops|
  {
    if ops == [] then 0 else
    StepKeeps(s, ops[0]);
    (if Ticks(ops[0]) && s.current == Some(p) && Running(s) then 1 else 0) + Paid(Apply(s, ops[0]), ops[1..], p)
  }

  /** p never sleeps, waits or exits during the run. */
  ghost predicate StaysReady(s: State, ops: seq<Op>, p: nat)
    requires Inv(s) && RunAllowed(s, ops)
    decreases |ops|
  {
    ops == [] ||
    (&& (Blocks(ops[0]) ==> s.current != Some(p))
     && (StepKeeps(s, ops[0]); StaysReady(Apply(s, ops[0]), ops[1..], p)))
  }

  predicate Blocks(op: Op) { op.Wait? || op.Exit? || (op.Sleep? && op.n > 0) }

  lemma YieldReady(s: State, p: nat)
    requires AlmostInv(s) && p in s.ready && p in s.procs
    ensures p in Yield(s).ready && p in Yield(s).procs && Yield(s).procs[p].nice == s.procs[p].nice
    ensures Yield(s).procs[p].vruntime == s.procs[p].vruntime + if Running(s) && s.current.value == p then Charge(s.procs[p].nice) else 0
  {
    hide TickSleepers, Pay, Best, AlmostInv, Charge;
    LegalOf(s);
    TickKnown(s);
    PayFacts(s);
    var s1 := Pay(s);
    assert TickedProc(s1, Tick(s), 0, p);
    assert s1.sleeping[0..] == s1.sleeping;
    assert (multiset(s.ready) + multiset(s.sleeping))[p] <= 1;
    OneList(s.ready, s.sleeping, p);
  }

  /** A ready process that does not block stays ready and pays one charge for each tick it runs. */
  lemma ReadyStep(s: State, op: Op, p: nat)
    requires Inv(s) && Allowed(s, op) && p in s.ready && p in s.procs && (Blocks(op) ==> s.current != Some(p))
    ensures var t := Apply(s, op);
            && p in t.ready && p in t.procs && t.procs[p].nice == s.procs[p].nice
            && t.procs[p].vruntime == s.procs[p].vruntime + if Ticks(op) && s.current == Some(p) && Running(s) then ChargeOf(s, p) else 0
  {
    hide Inv, AlmostInv, Yield, WakeUpSpec, ExitSpec, CreateSpec, StartSpec, WakeUpOneSpec, Charge;
    NiceOk(s, p);
    match op
    case Create(addr) => QuietReady(s, op, p);
    case Start(q) => QuietReady(s, op, p);
    case Timer =>
      InvAlmost(s);
      YieldReady(s, p);
    case Sleep(k) =>
      if k > 0 {
        RunningKnown(s);
        SleepAlmost(s, k);
        StaysIn(s.ready, s.current.value, p);
        YieldReady(ToSleep(s, s.current.value, k), p);
      }
    case Wait(q) =>
      RunningKnown(s);
      WaitAlmost(s, q);
      StaysIn(s.ready, s.current.value, p);
      YieldReady(ToQueue(s, s.current.value, q), p);
    case WakeUp(q) => QuietReady(s, op, p);
    case WakeUpOne(q) => QuietReady(s, op, p);
    case Exit => QuietReady(s, op, p);
  }

  lemma NiceOk(s: State, p: nat)
    requires Inv(s) && p in s.procs
    ensures s.procs[p].nice < 1024
  {
  }

  function ChargeOf(s: State, p: nat): nat {
    if p in s.procs && s.procs[p].nice < 1024 then Charge(s.procs[p].nice) else 0
  }

  lemma QuietReady(s: State, op: Op, p: nat)
    requires Inv(s) && Allowed(s, op) && p in s.ready && p in s.procs && !Ticks(op) && (Blocks(op) ==> s.current != Some(p))
    ensures var t := Apply(s, op); p in t.ready && p in t.procs && t.procs[p].nice == s.procs[p].nice && t.procs[p].vruntime == s.procs[p].vruntime
  {
    hide Inv, InQueues, Listed, Index, Without;
    match op
    case Create(addr) =>
    case Start(q) =>
      ReadyStarted(s, p);
    case Sleep(_) =>
    case WakeUp(q) =>
      QueueMembers(s, q);
      NotQueued(s, q, p);
      WakeAllQuiet(s, s.queues[q], p);
    case WakeUpOne(q) =>
      QueueMembers(s, q);
      NotQueued(s, q, p);
    case Exit =>
      RunningKnown(s);
      ExitKnown(s);
      StaysIn(s.ready, s.current.value, p);
  }

  lemma ReadyStarted(s: State, p: nat)
    requires Inv(s) && p in s.ready
    ensures p in s.started
  {
    ListedIn(s, p);
  }

  lemma NotQueued(s: State, q: nat, p: nat)
    requires Inv(s) && q < |s.queues| && p in s.ready
    ensures p !in s.queues[q]
  {
    hide InQueues;
    Single(s, p);
    QueueSize(s.queues, q);
    assert p in multiset(s.ready);
  }

  lemma {:induction false} WakeAllQuiet(s: State, list: seq<nat>, p: nat)
    requires (forall q :: q in list ==> q in s.procs) && p in s.procs && p !in list && p in s.ready
    ensures var t := WakeAll(s, list); p in t.ready && p in t.procs && t.procs[p] == s.procs[p]
    decreases |list|
  {
    if list != [] {
      WakeAllQuiet(Add(SetState(s, list[0], Ready), list[0]), list[1..], p);
    }
  }

  /** Run time charged to p during the run: what a tick costs it, for each tick it is running. */
  ghost function Charged(s: State, ops: seq<Op>, p: nat): nat
    requires Inv(s) && RunAllowed(s, ops)
    decreases |ops|
  {
    if ops == [] then 0 else
    StepKeeps(s, ops[0]);
    (if Ticks(ops[0]) && s.current == Some(p) && Running(s) then ChargeOf(s, p) else 0) + Charged(Apply(s, ops[0]), ops[1..], p)
  }

  lemma {:induction false} ChargedExactly(s: State, ops: seq<Op>, p: nat)
    requires Inv(s) && RunAllowed(s, ops) && p in s.ready && p in s.procs && StaysReady(s, ops, p)
    ensures var t := Runs(s, ops);
      p in t.ready && p in t.procs && t.procs[p].vruntime == s.procs[p].vruntime + Charged(s, ops, p)
    decreases |ops|
  {
    hide Inv, Allowed, Apply, Charge;
    if ops != [] {
      StepKeeps(s, ops[0]);
      ReadyStep(s, ops[0], p);
      ChargedExactly(Apply(s, ops[0]), ops[1..], p);
    }
  }

  /** At nice 0 a tick costs one unit. */
  lemma {:induction false} PaidExactly(s: State, ops: seq<Op>, p: nat)
    requires Inv(s) && RunAllowed(s, ops) && p in s.ready && p in s.procs && s.procs[p].nice == 0 && StaysReady(s, ops, p)
    ensures Charged(s, ops, p) == Paid(s, ops, p)
    decreases |ops|
  {
    hide Inv, Allowed, Apply;
    ChargeBounds(0);
    if ops != [] {
      StepKeeps(s, ops[0]);
      ReadyStep(s, ops[0], p);
      PaidExactly(Apply(s, ops[0]), ops[1..], p);
    }
  }

  /** Over any run without exits, with no charge above c, the run times charged to two processes that
      stay ready throughout differ by at most 2c, and by at most c if they start level, whatever their
      nice values. */
  lemma Fair(s: State, ops: seq<Op>, p: nat, q: nat, c: nat)
    requires Inv(s) && RunAllowed(s, ops) && NoExit(ops) && Close(s, c) && c >= 1
    requires p in s.ready && q in s.ready && p in s.procs && q in s.procs
    requires StaysReady(s, ops, p) && StaysReady(s, ops, q)
    ensures Charged(s, ops, p) <= Charged(s, ops, q) + c + c && Charged(s, ops, q) <= Charged(s, ops, p) + c + c
    ensures s.procs[p].vruntime == s.procs[q].vruntime ==>
      Charged(s, ops, p) <= Charged(s, ops, q) + c && Charged(s, ops, q) <= Charged(s, ops, p) + c
  {
    hide Charged, StaysReady, RunAllowed, Runs, InQueues, Charge;
    ChargedExactly(s, ops, p);
    ChargedExactly(s, ops, q);
    RunClose(s, ops, c);
    RunKeeps(s, ops);
  }

  /** Where no process has a charge above one unit, the ticks charged to two processes that stay ready
      differ by at most two, and by at most one if they start level. */
  lemma FairTicks(s: State, ops: seq<Op>, p: nat, q: nat)
    requires Inv(s) && RunAllowed(s, ops) && NoExit(ops) && Close(s, 1)
    requires p in s.ready && q in s.ready && p in s.procs && q in s.procs && s.procs[p].nice == 0 && s.procs[q].nice == 0
    requires StaysReady(s, ops, p) && StaysReady(s, ops, q)
    ensures -2 <= Paid(s, ops, p) - Paid(s, ops, q) <= 2
    ensures s.procs[p].vruntime == s.procs[q].vruntime ==> -1 <= Paid(s, ops, p) - Paid(s, ops, q) <= 1
  {
    hide Inv, Close, Paid, Charged, StaysReady, RunAllowed;
    PaidExactly(s, ops, p);
    PaidExactly(s, ops, q);
    Fair(s, ops, p, q, 1);
  }
}
