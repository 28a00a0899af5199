/**
 The scheduler's state and its operations as functions on that state: sys/kern/sch.cpp.

 Each operation runs with interrupts disabled, so each is one step. Threads and events are named
 by numbers; the intrusive run queue and sleep queues are sequences of threads.
 */
module SchedSpec {
  import opened Queues

  type Tid = nat
  type Evt = nat

  const PRI_MIN: int := 255
  const PRI_DEFAULT: int := 200
  const QUANTUM: int := 50_000_000
  const EINTR: int := 4

  datatype Resched = No | Switch | Preempt

  /** `on` is the sleep queue that holds the thread's link while it sleeps. */
  datatype Thread = Thread(
    sleep: bool, suspend: bool, exit: bool, zombie: bool,
    on: Evt, slpret: int,
    prio: int, roundRobin: bool, timeleft: int,
    exitEvent: Evt)

  datatype State = State(
    threads: map<Tid, Thread>,
    runq: seq<Tid>,
    sleepq: map<Evt, seq<Tid>>,
    active: Tid,
    resched: Resched,
    locks: nat)

  predicate Runnable(t: Thread) {
    !t.sleep && !t.suspend && !t.zombie
  }

  function Prio(threads: map<Tid, Thread>, t: Tid): int {
    if t in threads then threads[t].prio else PRI_MIN
  }

  /** The threads sleeping on an event, in order of arrival. */
  function Sleepers(s: State, e: Evt): seq<Tid> {
    if e in s.sleepq then s.sleepq[e] else []
  }

  // ----- queues -----

  predicate Sorted(threads: map<Tid, Thread>, q: seq<Tid>) {
    forall i, j :: 0 <= i < j < |q| ==> Prio(threads, q[i]) <= Prio(threads, q[j])
  }

  /** The place of runq_enqueue: behind all threads of higher or equal priority. */
  function Behind(threads: map<Tid, Thread>, q: seq<Tid>, prio: int): (i: nat)
    ensures i <= |q|
    ensures forall j :: 0 <= j < i ==> Prio(threads, q[j]) <= prio
    ensures i < |q| ==> prio < Prio(threads, q[i])
  {
    if q == [] || prio < Prio(threads, q[0]) then 0 else 1 + Behind(threads, q[1..], prio)
  }

  /** The place of runq_insert: behind threads of higher priority but before those of equal priority. */
  function Before(threads: map<Tid, Thread>, q: seq<Tid>, prio: int): (i: nat)
    ensures i <= |q|
    ensures forall j :: 0 <= j < i ==> Prio(threads, q[j]) < prio
    ensures i < |q| ==> prio <= Prio(threads, q[i])
  {
    if q == [] || prio <= Prio(threads, q[0]) then 0 else 1 + Before(threads, q[1..], prio)
  }

  function InsertAt(q: seq<Tid>, i: nat, t: Tid): (r: seq<Tid>)
    requires i <= |q|
    ensures forall x :: x in r <==> x in q || x == t
  {
    assert q == q[..i] + q[i..];
    q[..i] + [t] + q[i..]
  }

  /** The first sleeper of the highest priority, which is the lowest number. */
  function Best(threads: map<Tid, Thread>, q: seq<Tid>): (t: Tid)
    requires q != []
    ensures t in q && forall x :: x in q ==> Prio(threads, t) <= Prio(threads, x)
  {
    var n := |q| - 1;
    assert q == q[..n] + [q[n]];
    if n == 0 then q[0]
    else
      var b := Best(threads, q[..n]);
      if Prio(threads, q[n]) < Prio(threads, b) then q[n] else b
  }

  // ----- the run queue -----

  function RunqTop(s: State): int {
    if s.runq == [] then PRI_MIN + 1 else Prio(s.threads, s.runq[0])
  }

  function RunqEnqueue(s: State, t: Tid): State {
    s.(runq := InsertAt(s.runq, Behind(s.threads, s.runq, Prio(s.threads, t)), t),
       // it is only preemption when resched is not pending
       resched := if Prio(s.threads, t) < Prio(s.threads, s.active) && s.resched == No then Preempt else s.resched)
  }

  function RunqInsert(s: State, t: Tid): State {
    s.(runq := InsertAt(s.runq, Before(s.threads, s.runq, Prio(s.threads, t)), t))
  }

  // ----- operations -----

  /** Take thread t off its sleep queue, with a result for the sleeper. */
  function Awake(s: State, t: Tid, result: int): State
    requires t in s.threads
  {
    var e := s.threads[t].on;
    s.(sleepq := s.sleepq[e := Without(Sleepers(s, e), t)],
       threads := s.threads[t := s.threads[t].(sleep := false, slpret := result)])
  }

  /** Awake, and put the thread on the run queue unless it is the active one. */
  function Wake(s: State, t: Tid, result: int): State
    requires t in s.threads
  {
    var a := Awake(s, t, result);
    if t != s.active then RunqEnqueue(a, t) else a
  }

  /** Wake the threads of q, one after another. */
  function WakeAll(s: State, q: seq<Tid>, result: int): State
    decreases |q|
  {
    if q == [] then s
    else if q[0] in s.threads then WakeAll(Wake(s, q[0], result), q[1..], result)
    else s
  }

  /** sch_wakeup: wake all threads sleeping on event e. */
  function Wakeup(s: State, e: Evt, result: int): State {
    WakeAll(s, Sleepers(s, e), result)
  }

  /** sch_wakeone: wake the best sleeper. The test for the active thread looks at the last sleeper instead. */
  function WakeOne(s: State, e: Evt): State {
    var q := Sleepers(s, e);
    if q == [] || Best(s.threads, q) !in s.threads then s
    else
      var top := Best(s.threads, q);
      var a := Awake(s, top, 0);
      if q[|q| - 1] != s.active then RunqEnqueue(a, top) else a
  }

  /** sch_requeue: move the first sleeper of event l to the end of event r. */
  function Requeue(s: State, l: Evt, r: Evt): State {
    var q := Sleepers(s, l);
    if q == [] || q[0] !in s.threads then s
    else
      var off := s.(sleepq := s.sleepq[l := q[1..]]);
      off.(sleepq := off.sleepq[r := Sleepers(off, r) + [q[0]]],
           threads := s.threads[q[0] := s.threads[q[0]].(on := r)])
  }

  /** sch_prepare_sleep, when no signal is pending. */
  function PrepareSleep(s: State, e: Evt): State
    requires s.active in s.threads
  {
    s.(threads := s.threads[s.active := s.threads[s.active].(sleep := true, on := e)],
       sleepq := s.sleepq[e := Sleepers(s, e) + [s.active]],
       locks := s.locks + 1)
  }

  function ContinueSleep(s: State): State
    requires s.active in s.threads
  {
    s.(locks := 0, resched := if s.threads[s.active].sleep then Switch else s.resched)
  }

  function Unsleep(s: State, t: Tid, result: int): State
    requires t in s.threads
  {
    if s.threads[t].sleep then Wake(s, t, result) else s
  }

  function Lock(s: State): State {
    s.(locks := s.locks + 1)
  }

  function Unlock(s: State): State
    requires s.locks > 0
  {
    s.(locks := s.locks - 1)
  }

  function CancelSleep(s: State): State
    requires s.active in s.threads && s.locks > 0
  {
    Unlock(Unsleep(s, s.active, 0))
  }

  function Signal(s: State, t: Tid): State
    requires t in s.threads
  {
    if t == s.active then s.(resched := Preempt) else Unsleep(s, t, -EINTR)
  }

  function Yield(s: State): State {
    if RunqTop(s) <= Prio(s.threads, s.active) then s.(resched := Switch) else s
  }

  function Suspend(s: State, t: Tid): State
    requires t in s.threads
  {
    s.(resched := if t == s.active then Switch else s.resched,
       runq := if t != s.active && Runnable(s.threads[t]) then Without(s.runq, t) else s.runq,
       threads := s.threads[t := s.threads[t].(suspend := true)])
  }

  function Resume(s: State, t: Tid): State
    requires t in s.threads
  {
    var r := s.(threads := s.threads[t := s.threads[t].(suspend := false)]);
    if Runnable(r.threads[t]) && t != s.active then RunqEnqueue(r, t) else r
  }

  /** Charge nsec of running time to a round robin thread, and give it another quantum when the last is up. */
  function Charge(th: Thread, nsec: nat): (r: Thread)
    ensures r.(timeleft := th.timeleft) == th
  {
    if !th.roundRobin then th
    else if QuantumUp(th, nsec) then th.(timeleft := th.timeleft - nsec + QUANTUM)
    else th.(timeleft := th.timeleft - nsec)
  }

  predicate QuantumUp(th: Thread, nsec: nat) {
    th.roundRobin && th.timeleft - nsec <= 0
  }

  function Elapse(s: State, nsec: nat): State
    requires s.active in s.threads
  {
    var th := s.threads[s.active];
    s.(threads := s.threads[s.active := Charge(th, nsec)],
       // if there are other threads of equal or higher priority run them now
       resched := if QuantumUp(th, nsec) && RunqTop(s) <= th.prio then Switch else s.resched)
  }

  function Start(s: State, t: Tid, exitEvent: Evt): State {
    s.(threads := s.threads[t := Thread(false, true, false, false, 0, 0, PRI_DEFAULT, true, QUANTUM, exitEvent)])
  }

  function Stop(s: State, t: Tid): State
    requires t in s.threads
  {
    s.(threads := s.threads[t := s.threads[t].(exit := true)])
  }

  function TestExit(s: State): State
    requires s.active in s.threads
  {
    if !s.threads[s.active].exit then s
    else s.(threads := s.threads[s.active := s.threads[s.active].(zombie := true)], resched := Switch)
  }

  function SetPrio(s: State, t: Tid, prio: int): State
    requires t in s.threads
  {
    var p := s.(threads := s.threads[t := s.threads[t].(prio := prio)]);
    if t == s.active then
      p.(resched := if prio > RunqTop(s) && s.resched == No then Preempt else s.resched)
    else if Runnable(s.threads[t]) then
      RunqEnqueue(p.(runq := Without(s.runq, t)), t)
    else p
  }

  /** The first half of sch_switch: the active thread goes to the run queue, if it can run. */
  function PutBack(s: State): State
    requires s.active in s.threads
  {
    if !Runnable(s.threads[s.active]) then s
    else if s.resched == Preempt then RunqInsert(s, s.active)
    else RunqEnqueue(s, s.active)
  }

  /** sch_switch. A zombie that is switched away from is reaped, and its task told. */
  function SwitchTo(s: State): State
    requires s.active in s.threads
  {
    if s.resched == No || s.locks > 0 then s
    else
      var b := PutBack(s);
      if b.runq == [] then s
      else
        var n := b.(runq := b.runq[1..], active := b.runq[0], resched := No);
        if n.active != s.active && s.threads[s.active].zombie then
          Reap(Wakeup(n, s.threads[s.active].exitEvent, 0), s.active)
        else n
  }

  function Reap(s: State, t: Tid): State {
    s.(threads := s.threads - {t})
  }
}
