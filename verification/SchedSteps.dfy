/** The scheduler as a state machine: every run of its operations keeps the invariant. */
module SchedSteps {
  import opened Queues
  import opened SchedSpec
  import opened SchedInv

  datatype Step =
    | DoWakeup(e: Evt, result: int)
    | DoWakeOne(e: Evt)
    | DoRequeue(l: Evt, r: Evt)
    | DoPrepareSleep(e: Evt)
    | DoContinueSleep
    | DoCancelSleep
    | DoUnsleep(t: Tid, result: int)
    | DoSignal(t: Tid)
    | DoLock
    | DoUnlock
    | DoYield
    | DoSuspend(t: Tid)
    | DoResume(t: Tid)
    | DoElapse(nsec: nat)
    | DoStart(t: Tid, exitEvent: Evt)
    | DoStop(t: Tid)
    | DoTestExit
    | DoSetPrio(t: Tid, prio: int)
    | DoSwitch

  /**
   When a step may be taken: what the operation asserts of its caller, that nobody puts the idle
   thread to sleep, suspends or stops it, and the conditions under which a wake-up is sound.
   */
  ghost predicate Enabled(s: State, idle: Tid, step: Step) {
    s.active in s.threads &&
    match step
    case DoWakeup(e, _) => NoneSuspended(s, e)
    case DoWakeOne(e) => WakeOneFits(s, e)
    case DoRequeue(_, _) => true
    case DoPrepareSleep(_) => Runnable(s.threads[s.active].(suspend := false)) && s.active != idle
    case DoContinueSleep => s.locks == 1
    case DoCancelSleep => s.locks > 0
    case DoUnsleep(t, _) => t in s.threads && (t == s.active || !s.threads[t].suspend)
    case DoSignal(t) => t in s.threads && (t == s.active || !s.threads[t].suspend)
    case DoLock => true
    case DoUnlock => s.locks > 0 && (s.locks == 1 ==> !s.threads[s.active].sleep)
    case DoYield => s.locks == 0
    case DoSuspend(t) => t in s.threads && !s.threads[t].suspend && t != idle
    case DoResume(t) => t in s.threads && s.threads[t].suspend
    case DoElapse(_) => true
    case DoStart(t, _) => t !in s.threads
    case DoStop(t) => t in s.threads && t != idle
    case DoTestExit => s.locks == 0 && !s.threads[s.active].sleep
    case DoSetPrio(t, _) => t in s.threads
    case DoSwitch => s.threads[s.active].zombie ==> NoneSuspended(s, s.threads[s.active].exitEvent)
  }

  ghost function Next(s: State, idle: Tid, step: Step): State
    requires Enabled(s, idle, step)
  {
    match step
    case DoWakeup(e, result) => Wakeup(s, e, result)
    case DoWakeOne(e) => WakeOne(s, e)
    case DoRequeue(l, r) => Requeue(s, l, r)
    case DoPrepareSleep(e) => PrepareSleep(s, e)
    case DoContinueSleep => ContinueSleep(s)
    case DoCancelSleep => CancelSleep(s)
    case DoUnsleep(t, result) => Unsleep(s, t, result)
    case DoSignal(t) => Signal(s, t)
    case DoLock => Lock(s)
    case DoUnlock => Unlock(s)
    case DoYield => Yield(s)
    case DoSuspend(t) => Suspend(s, t)
    case DoResume(t) => Resume(s, t)
    case DoElapse(nsec) => Elapse(s, nsec)
    case DoStart(t, exitEvent) => Start(s, t, exitEvent)
    case DoStop(t) => Stop(s, t)
    case DoTestExit => TestExit(s)
    case DoSetPrio(t, prio) => SetPrio(s, t, prio)
    case DoSwitch => SwitchTo(s)
  }

  // ----- one lemma per operation -----

  lemma SameSleepers(s: State, r: State)
    requires r.sleepq == s.sleepq
    ensures forall e :: Sleepers(r, e) == Sleepers(s, e)
  {
  }

  lemma RequeueInv(s: State, idle: Tid, l: Evt, r: Evt)
    requires Inv(s, idle)
    ensures Inv(Requeue(s, l, r), idle)
  {
    var q := Sleepers(s, l);
    if q != [] {
      var n := Requeue(s, l, r);
      var t := q[0];
      assert t in q;
      var rest := if l == r then q[1..] else Sleepers(s, r);
      forall e ensures Sleepers(n, e) == if e == r then rest + [t] else if e == l then q[1..] else Sleepers(s, e) {}
      assert t !in rest;
      SortedSame(s.threads, n.threads, s.runq);
    }
  }

  lemma PrepareInv(s: State, idle: Tid, e: Evt)
    requires Inv(s, idle) && Runnable(s.threads[s.active].(suspend := false)) && s.active != idle
    ensures Inv(PrepareSleep(s, e), idle)
  {
    var n := PrepareSleep(s, e);
    assert s.active !in Sleepers(s, e);
    forall f ensures Sleepers(n, f) == if f == e then Sleepers(s, e) + [s.active] else Sleepers(s, f) {}
    SortedSame(s.threads, n.threads, s.runq);
  }

  lemma UnsleepInv(s: State, idle: Tid, t: Tid, result: int)
    requires Inv(s, idle) && t in s.threads && (t == s.active || !s.threads[t].suspend)
    ensures Inv(Unsleep(s, t, result), idle)
    ensures Unsleep(s, t, result).active == s.active && Unsleep(s, t, result).locks == s.locks
    ensures t in Unsleep(s, t, result).threads && !Unsleep(s, t, result).threads[t].sleep
  {
    if s.threads[t].sleep { WakeInv(s, idle, t, result); }
  }

  lemma CancelInv(s: State, idle: Tid)
    requires Inv(s, idle) && s.locks > 0
    ensures Inv(CancelSleep(s), idle)
  {
    UnsleepInv(s, idle, s.active, 0);
    SameSleepers(Unsleep(s, s.active, 0), CancelSleep(s));
  }

  lemma SuspendInv(s: State, idle: Tid, t: Tid)
    requires Inv(s, idle) && t in s.threads && t != idle
    ensures Inv(Suspend(s, t), idle)
  {
    var n := Suspend(s, t);
    SameSleepers(s, n);
    WithoutDistinct(s.runq, t);
    WithoutSorted(s.threads, s.runq, t);
    SortedSame(s.threads, n.threads, n.runq);
  }

  lemma ResumeInv(s: State, idle: Tid, t: Tid)
    requires Inv(s, idle) && t in s.threads && s.threads[t].suspend
    ensures Inv(Resume(s, t), idle)
  {
    var r := s.(threads := s.threads[t := s.threads[t].(suspend := false)]);
    SameSleepers(s, r);
    SortedSame(s.threads, r.threads, s.runq);
    if Runnable(r.threads[t]) && t != s.active {
      assert InvBut(r, idle, t);
      EnqueueInv(r, idle, t);
    }
  }

  /** Changing only accounting fields of threads, or asking for a reschedule, keeps the invariant. */
  lemma Retouched(s: State, n: State, idle: Tid)
    requires Inv(s, idle)
    requires n.runq == s.runq && n.sleepq == s.sleepq && n.active == s.active && n.locks == s.locks
    requires n.resched == s.resched || n.resched != No
    requires n.threads.Keys == s.threads.Keys
    requires forall t :: t in s.threads ==>
               n.threads[t].(timeleft := s.threads[t].timeleft) == s.threads[t]
    ensures Inv(n, idle)
  {
    SameSleepers(s, n);
    SortedSame(s.threads, n.threads, s.runq);
  }

  lemma ElapseInv(s: State, idle: Tid, nsec: nat)
    requires Inv(s, idle)
    ensures Inv(Elapse(s, nsec), idle)
  {
    hide RunqPlaced, SleepPlaced, Ranked, Charge;
    Retouched(s, Elapse(s, nsec), idle);
  }

  lemma StartInv(s: State, idle: Tid, t: Tid, exitEvent: Evt)
    requires Inv(s, idle) && t !in s.threads
    ensures Inv(Start(s, t, exitEvent), idle)
  {
    var n := Start(s, t, exitEvent);
    SameSleepers(s, n);
    SortedSame(s.threads, n.threads, s.runq);
  }

  lemma StopInv(s: State, idle: Tid, t: Tid)
    requires Inv(s, idle) && t in s.threads && t != idle
    ensures Inv(Stop(s, t), idle)
  {
    var n := Stop(s, t);
    SameSleepers(s, n);
    SortedSame(s.threads, n.threads, s.runq);
  }

  lemma TestExitInv(s: State, idle: Tid)
    requires Inv(s, idle) && !s.threads[s.active].sleep
    ensures Inv(TestExit(s), idle)
  {
    var n := TestExit(s);
    SameSleepers(s, n);
    SortedSame(s.threads, n.threads, s.runq);
  }

  /** A change of priority of a thread that is not on the run queue. */
  lemma SetPrioOffQueue(s: State, idle: Tid, t: Tid, prio: int)
    requires Inv(s, idle) && t in s.threads && (t == s.active || !Runnable(s.threads[t]))
    ensures Inv(SetPrio(s, t, prio), idle)
  {
    var n := SetPrio(s, t, prio);
    SameSleepers(s, n);
    SortedSame(s.threads, n.threads, s.runq);
    if n.resched == No {
      forall x | x in n.runq ensures Prio(n.threads, n.active) <= Prio(n.threads, x) {
        var i :| 0 <= i < |s.runq| && s.runq[i] == x;
        assert i > 0 ==> Prio(s.threads, s.runq[0]) <= Prio(s.threads, s.runq[i]);
      }
    }
  }

  lemma SetPrioQueued(s: State, idle: Tid, t: Tid, prio: int)
    requires Inv(s, idle) && t in s.threads && t != s.active && Runnable(s.threads[t])
    ensures Inv(SetPrio(s, t, prio), idle)
  {
    var w := s.(threads := s.threads[t := s.threads[t].(prio := prio)], runq := Without(s.runq, t));
    WithoutDistinct(s.runq, t);
    WithoutSorted(s.threads, s.runq, t);
    SortedSame(s.threads, w.threads, w.runq);
    SameSleepers(s, w);
    assert InvBut(w, idle, t);
    EnqueueInv(w, idle, t);
  }

  // ----- sch_switch -----

  /** After the active thread is put back, the queue holds every thread that can run, so it is not empty. */
  lemma PutBackQueue(s: State, idle: Tid)
    requires Inv(s, idle)
    ensures var b := PutBack(s);
            && Distinct(b.runq) && Sorted(s.threads, b.runq) && b.runq != []
            && (forall t :: t in b.runq <==> t in s.threads && Runnable(s.threads[t]))
            && b.threads == s.threads && b.sleepq == s.sleepq && b.active == s.active && b.locks == s.locks
  {
    var b := PutBack(s);
    if Runnable(s.threads[s.active]) {
      var p := Prio(s.threads, s.active);
      var i := if s.resched == Preempt then Before(s.threads, s.runq, p) else Behind(s.threads, s.runq, p);
      InsertDistinct(s.runq, i, s.active);
      InsertSorted(s.threads, s.runq, i, s.active);
    }
    assert idle in b.runq;
  }

  lemma SortedFrom(threads: map<Tid, Thread>, q: seq<Tid>, i: nat, t: Tid)
    requires Sorted(threads, q) && i < |q| && t in q[i..]
    ensures Prio(threads, q[i]) <= Prio(threads, t)
  {
    var k :| 0 <= k < |q[i..]| && q[i..][k] == t;
    assert q[i + k] == t;
  }

  lemma PickQueue(s: State, n: State, q: seq<Tid>)
    requires q != [] && Distinct(q) && Sorted(s.threads, q)
    requires forall t :: t in q <==> t in s.threads && Runnable(s.threads[t])
    requires n == s.(runq := q[1..], active := q[0], resched := No)
    ensures RunqPlaced(n) && Ranked(n)
    ensures forall t :: t in q ==> Prio(s.threads, q[0]) <= Prio(s.threads, t)
  {
    assert q == [q[0]] + q[1..];
    assert q[0] !in q[1..];
    assert q[0..] == q;
    forall t | t in q ensures Prio(s.threads, q[0]) <= Prio(s.threads, t) {
      SortedFrom(s.threads, q, 0, t);
    }
  }

  /** The head of a full queue becomes active. */
  lemma PickInv(s: State, idle: Tid, q: seq<Tid>)
    requires Inv(s, idle) && s.locks == 0
    requires q != [] && Distinct(q) && Sorted(s.threads, q)
    requires forall t :: t in q <==> t in s.threads && Runnable(s.threads[t])
    ensures Inv(s.(runq := q[1..], active := q[0], resched := No), idle)
    ensures forall t :: t in s.threads && Runnable(s.threads[t]) ==> Prio(s.threads, q[0]) <= Prio(s.threads, t)
  {
    hide RunqPlaced, Ranked, Queues.Distinct, SchedSpec.Sorted;
    var n := s.(runq := q[1..], active := q[0], resched := No);
    SameSleepers(s, n);
    PickQueue(s, n, q);
    assert q[0] in q;
  }

  lemma ReapInv(s: State, idle: Tid, t: Tid)
    requires Inv(s, idle) && t in s.threads && s.threads[t].zombie && t != s.active
    ensures Inv(Reap(s, t), idle)
  {
    var n := Reap(s, t);
    SameSleepers(s, n);
    SortedSame(s.threads, n.threads, s.runq);
  }

  lemma {:induction false} WakeAllZombie(s: State, q: seq<Tid>, result: int, x: Tid)
    requires x in s.threads && forall t :: t in q ==> t in s.threads
    ensures var r := WakeAll(s, q, result); x in r.threads && r.threads[x].zombie == s.threads[x].zombie && r.active == s.active
    decreases |q|
  {
    if q != [] { WakeAllZombie(Wake(s, q[0], result), q[1..], result, x); }
  }

  /** sch_switch keeps the invariant, finds a thread to run, and picks one of the best. */
  lemma SwitchInv(s: State, idle: Tid)
    requires Inv(s, idle)
    requires s.threads[s.active].zombie ==> NoneSuspended(s, s.threads[s.active].exitEvent)
    ensures Inv(SwitchTo(s), idle)
    ensures s.resched != No && s.locks == 0 ==>
              var n := SwitchTo(s).active;
              && n in s.threads && Runnable(s.threads[n])
              && forall t :: t in s.threads && Runnable(s.threads[t]) ==> Prio(s.threads, n) <= Prio(s.threads, t)
  {
    if s.resched != No && s.locks == 0 {
      var b := PutBack(s);
      PutBackQueue(s, idle);
      PickInv(s, idle, b.runq);
      var n := s.(runq := b.runq[1..], active := b.runq[0], resched := No);
      assert n == b.(runq := b.runq[1..], active := b.runq[0], resched := No);
      assert b.runq[0] in b.runq;
      if n.active != s.active && s.threads[s.active].zombie {
        var e := s.threads[s.active].exitEvent;
        SwitchReap(s, n, idle, e);
      }
    }
  }

  lemma ReapSleepers(s: State, n: State, idle: Tid, e: Evt)
    requires Inv(n, idle) && n.threads == s.threads && n.sleepq == s.sleepq
    requires s.active in s.threads && s.threads[s.active].zombie && n.active != s.active
    requires NoneSuspended(s, e)
    ensures NoneSuspended(n, e)
    ensures forall t :: t in Sleepers(n, e) ==> t in n.threads
  {
    SameSleepers(s, n);
  }

  lemma SwitchReap(s: State, n: State, idle: Tid, e: Evt)
    requires Inv(n, idle) && n.threads == s.threads && n.sleepq == s.sleepq
    requires s.active in s.threads && s.threads[s.active].zombie && n.active != s.active
    requires NoneSuspended(s, e)
    ensures Inv(Reap(Wakeup(n, e, 0), s.active), idle)
    ensures Reap(Wakeup(n, e, 0), s.active).active == n.active
  {
    hide Inv, Sleepers, NoneSuspended;
    ReapSleepers(s, n, idle, e);
    WakeupInv(n, idle, e, 0);
    WakeAllZombie(n, Sleepers(n, e), 0, s.active);
    ReapInv(Wakeup(n, e, 0), idle, s.active);
  }

  // ----- every step, every run -----

  lemma StepInv(s: State, idle: Tid, step: Step)
    requires Inv(s, idle) && Enabled(s, idle, step)
    ensures Inv(Next(s, idle, step), idle)
  {
    match step
    case DoWakeup(e, result) => WakeupInv(s, idle, e, result);
    case DoWakeOne(e) => WakeOneInv(s, idle, e);
    case DoRequeue(l, r) => RequeueInv(s, idle, l, r);
    case DoPrepareSleep(e) => PrepareInv(s, idle, e);
    case DoContinueSleep => SameSleepers(s, ContinueSleep(s));
    case DoCancelSleep => CancelInv(s, idle);
    case DoUnsleep(t, result) => UnsleepInv(s, idle, t, result);
    case DoSignal(t) => SignalInv(s, idle, t);
    case DoLock => SameSleepers(s, Lock(s));
    case DoUnlock => SameSleepers(s, Unlock(s));
    case DoYield => Retouched(s, Yield(s), idle);
    case DoSuspend(t) => SuspendInv(s, idle, t);
    case DoResume(t) => ResumeInv(s, idle, t);
    case DoElapse(nsec) => ElapseInv(s, idle, nsec);
    case DoStart(t, exitEvent) => StartInv(s, idle, t, exitEvent);
    case DoStop(t) => StopInv(s, idle, t);
    case DoTestExit => TestExitInv(s, idle);
    case DoSetPrio(t, prio) =>
      if t == s.active || !Runnable(s.threads[t]) { SetPrioOffQueue(s, idle, t, prio); } else { SetPrioQueued(s, idle, t, prio); }
    case DoSwitch => SwitchInv(s, idle);
  }

  lemma SignalInv(s: State, idle: Tid, t: Tid)
    requires Inv(s, idle) && t in s.threads && (t == s.active || !s.threads[t].suspend)
    ensures Inv(Signal(s, t), idle)
  {
    if t == s.active { Retouched(s, Signal(s, t), idle); } else { UnsleepInv(s, idle, t, -EINTR); }
  }

  /** The state after boot: only the idle thread, running. */
  function Boot(idle: Tid): State {
    State(map[idle := Idle()], [], map[], idle, No, 0)
  }

  lemma BootInv(idle: Tid)
    ensures Inv(Boot(idle), idle)
  {
    forall e ensures Sleepers(Boot(idle), e) == [] {}
  }

  ghost predicate Takes(s: State, n: State, idle: Tid, step: Step) {
    Enabled(s, idle, step) && n == Next(s, idle, step)
  }

  /** `states` is a run of the machine taking `steps`, each enabled where it is taken. */
  ghost predicate IsRun(states: seq<State>, steps: seq<Step>, idle: Tid) {
    && |states| == |steps| + 1
    && states[0] == Boot(idle)
    && forall i :: 0 <= i < |steps| ==> Takes(states[i], states[i + 1], idle, steps[i])
  }

  /** In every state of every run the invariant holds. */
  lemma {:induction false} RunInv(states: seq<State>, steps: seq<Step>, idle: Tid, n: nat)
    requires IsRun(states, steps, idle) && n < |states|
    ensures Inv(states[n], idle)
    decreases n
  {
    if n == 0 {
      BootInv(idle);
    } else {
      RunInv(states, steps, idle, n - 1);
      assert Takes(states[n - 1], states[n - 1 + 1], idle, steps[n - 1]);
      StepInv(states[n - 1], idle, steps[n - 1]);
    }
  }

  // ----- states that runs lead to -----

  /** Some run of the machine ends in s. */
  ghost predicate Reached(s: State, idle: Tid) {
    exists states, steps :: IsRun(states, steps, idle) && states[|steps|] == s
  }

  lemma BootReached(idle: Tid)
    ensures Reached(Boot(idle), idle)
  {
    assert IsRun([Boot(idle)], [], idle);
  }

  lemma Reach(s: State, idle: Tid, step: Step, n: State)
    requires Reached(s, idle) && Takes(s, n, idle, step)
    ensures Reached(n, idle)
  {
    var states, steps :| IsRun(states, steps, idle) && states[|steps|] == s;
    var states', steps' := states + [n], steps + [step];
    forall i | 0 <= i < |steps'| ensures Takes(states'[i], states'[i + 1], idle, steps'[i]) {
      assert i < |steps| ==> Takes(states[i], states[i + 1], idle, steps[i]);
    }
    assert IsRun(states', steps', idle) && states'[|steps'|] == n;
  }

  /** Threads 1 and 2 started, the idle thread running. */
  function TwoStarted(): State {
    State(map[0 := Idle(), 1 := Started(10).(suspend := true), 2 := Started(PRI_DEFAULT).(suspend := true)],
          [], map[], 0, No, 0)
  }

  lemma TwoStartedReached()
    ensures Reached(TwoStarted(), 0)
  {
    hide Reached;
    var s := Boot(0);
    BootReached(0);
    var n := Start(s, 1, 9);
    Reach(s, 0, DoStart(1, 9), n);
    var m := Start(n, 2, 9);
    Reach(n, 0, DoStart(2, 9), m);
    var p := SetPrio(m, 1, 10);
    Reach(m, 0, DoSetPrio(1, 10), p);
    assert p.threads == TwoStarted().threads;
  }

  /** Resuming a thread that outranks the idle thread, and the switch to it. */
  lemma ResumeReached(s: State, t: Tid)
    requires Reached(s, 0) && s.active == 0 != t && s.runq == [] && s.resched == No && s.locks == 0
    requires 0 in s.threads && s.threads[0] == Idle() && t in s.threads && s.threads[t].suspend
    requires Runnable(s.threads[t].(suspend := false)) && s.threads[t].prio < PRI_MIN
    ensures Reached(s.(threads := s.threads[t := s.threads[t].(suspend := false)], active := t, runq := [0]), 0)
  {
    hide Reached;
    var n := Resume(s, t);
    Reach(s, 0, DoResume(t), n);
    assert n.runq == [t] && n.resched == Preempt;
    assert PutBack(n).runq == [t, 0];
    var m := SwitchTo(n);
    Reach(n, 0, DoSwitch, m);
    assert m.runq == [0];
  }

  /** Thread 1 asleep on event 5 and thread 2 started, the idle thread running. */
  function OneAsleep(): State {
    State(map[0 := Idle(), 1 := Started(10).(sleep := true, on := 5), 2 := Started(PRI_DEFAULT).(suspend := true)],
          [], map[5 := [1]], 0, No, 0)
  }

  /** Thread 1 runs and thread 2 is started. */
  function OneRuns(): State {
    State(map[0 := Idle(), 1 := Started(10), 2 := Started(PRI_DEFAULT).(suspend := true)], [0], map[], 1, No, 0)
  }

  lemma OneRunsReached()
    ensures Reached(OneRuns(), 0)
  {
    hide Reached;
    TwoStartedReached();
    ResumeReached(TwoStarted(), 1);
    assert TwoStarted().threads[1 := TwoStarted().threads[1].(suspend := false)] == OneRuns().threads;
  }

  lemma OneAsleepReached()
    ensures Reached(OneAsleep(), 0)
  {
    hide Reached;
    OneRunsReached();
    var asleep := OneAsleep().(runq := [0], active := 1);
    var n, m := asleep.(locks := 1), asleep.(resched := Switch);
    assert OneRuns().threads[1 := OneRuns().threads[1].(sleep := true, on := 5)] == n.threads;
    assert Sleepers(OneRuns(), 5) + [1] == [1];
    Reach(OneRuns(), 0, DoPrepareSleep(5), n);
    Reach(n, 0, DoContinueSleep, m);
    assert PutBack(m) == m && m.runq[1..] == [];
    Reach(m, 0, DoSwitch, OneAsleep());
  }

  /** The state in which sch_wakeone strands a thread is reached. */
  lemma StrandingReached()
    ensures Reached(StrandingState(), 0)
  {
    hide Reached;
    OneAsleepReached();
    ResumeReached(OneAsleep(), 2);
    var s := OneAsleep().(threads := OneAsleep().threads[2 := Started(PRI_DEFAULT)], active := 2, runq := [0]);
    assert s.threads[2] == OneAsleep().threads[2].(suspend := false);
    assert Sleepers(s, 5) + [2] == [1, 2];
    var n := PrepareSleep(s, 5);
    Reach(s, 0, DoPrepareSleep(5), n);
    assert n.threads == StrandingState().threads && n.sleepq == StrandingState().sleepq;
  }

  /** The state in which sch_wakeup queues a suspended thread is reached. */
  lemma SuspendedReached()
    ensures Reached(SuspendedState(), 0)
  {
    hide Reached;
    OneAsleepReached();
    var s := Suspend(OneAsleep(), 1);
    Reach(OneAsleep(), 0, DoSuspend(1), s);
    ResumeReached(s, 2);
    assert s.threads[2 := s.threads[2].(suspend := false)] == SuspendedState().threads;
  }
}
