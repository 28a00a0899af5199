/**
 What each scheduler operation does to every thread, sleep queue and flag, written out field by field, and
 what a sleeper is told over whole runs: sys/kern/sch.cpp.
 */
module SchedEffects {
  import opened Queues
  import opened SchedSpec
  import opened SchedInv
  import opened SchedSteps

  // ----- threads -----

  /** Thread i of a queue outranks those before it, and those behind it do not outrank it. */
  ghost predicate BestAt(threads: map<Tid, Thread>, q: seq<Tid>, i: int) {
    && 0 <= i < |q| && q[i] in threads
    && (forall j :: 0 <= j < i ==> q[j] in threads && threads[q[i]].prio < threads[q[j]].prio)
    && (forall j :: i < j < |q| ==> q[j] in threads && threads[q[i]].prio <= threads[q[j]].prio)
  }

  /** The first of the sleepers with the highest priority. */
  ghost predicate FirstBest(threads: map<Tid, Thread>, q: seq<Tid>, t: Tid) {
    exists i :: BestAt(threads, q, i) && q[i] == t
  }

  /** The active thread is a zombie and is switched away from. */
  ghost predicate Reaps(s: State, step: Step) {
    step == DoSwitch && s.resched != No && s.locks == 0 && s.active in s.threads && s.threads[s.active].zombie
  }

  /** The step ends the sleep of thread t. */
  ghost predicate Wakes(s: State, step: Step, t: Tid) {
    t in s.threads && s.threads[t].sleep &&
    match step
    case DoWakeup(e, _) => s.threads[t].on == e
    case DoWakeOne(e) => FirstBest(s.threads, Sleepers(s, e), t)
    case DoCancelSleep => t == s.active
    case DoUnsleep(x, _) => t == x
    case DoSignal(x) => t == x && t != s.active
    case DoSwitch => Reaps(s, step) && s.threads[t].on == s.threads[s.active].exitEvent
    case _ => false
  }

  /** What sch_continue_sleep returns to a thread that the step wakes. */
  function WakeResult(step: Step): int {
    match step
    case DoWakeup(_, result) => result
    case DoUnsleep(_, result) => result
    case DoSignal(_) => -4
    case _ => 0
  }

  ghost function ThreadAfter(s: State, step: Step, t: Tid): Thread
    requires t in s.threads
  {
    var th := s.threads[t];
    if Wakes(s, step, t) then th.(sleep := false, slpret := WakeResult(step))
    else
      match step
      case DoRequeue(l, r) => if Sleepers(s, l) != [] && t == Sleepers(s, l)[0] then th.(on := r) else th
      case DoPrepareSleep(e) => if t == s.active then th.(sleep := true, on := e) else th
      case DoSuspend(x) => if t == x then th.(suspend := true) else th
      case DoResume(x) => if t == x then th.(suspend := false) else th
      case DoElapse(nsec) =>
        if t != s.active || !th.roundRobin then th
        else th.(timeleft := th.timeleft - nsec + if th.timeleft <= nsec then 50_000_000 else 0)
      case DoStop(x) => if t == x then th.(exit := true) else th
      case DoTestExit => if t == s.active && th.exit then th.(zombie := true) else th
      case DoSetPrio(x, prio) => if t == x then th.(prio := prio) else th
      case _ => th
  }

  /** Threads come with sch_start, suspended, and go when they are reaped; the others are as above. */
  ghost predicate ThreadsAfter(s: State, step: Step, n: State) {
    && (forall t :: t in n.threads <==> (t in s.threads && !(Reaps(s, step) && t == s.active)) || (step.DoStart? && t == step.t))
    && (forall t :: t in s.threads && t in n.threads ==> n.threads[t] == ThreadAfter(s, step, t))
    && (step.DoStart? ==>
          var th := n.threads[step.t];
          && !th.sleep && th.suspend && !th.exit && !th.zombie
          && th.prio == 200 && th.roundRobin && th.timeleft == 50_000_000 && th.exitEvent == step.exitEvent)
  }

  lemma {:induction false} WakeAllThread(s: State, q: seq<Tid>, result: int, x: Tid)
    requires forall t :: t in q ==> t in s.threads
    ensures var r := WakeAll(s, q, result);
            && r.locks == s.locks && r.active == s.active && (x in r.threads <==> x in s.threads)
            && (x in s.threads ==>
                  r.threads[x] == if x in q then s.threads[x].(sleep := false, slpret := result) else s.threads[x])
    decreases |q|
  {
    if q != [] {
      WakeAllThread(Wake(s, q[0], result), q[1..], result, x);
    }
  }

  /** sch_wakeup changes the threads that slept on the event and no others, suspended or not. */
  lemma WakeupThreads(s: State, e: Evt, result: int)
    requires SleepPlaced(s)
    ensures ThreadsAfter(s, DoWakeup(e, result), Wakeup(s, e, result))
    ensures Wakeup(s, e, result).locks == s.locks && Wakeup(s, e, result).active == s.active
  {
    hide WakeAll;
    var q := Sleepers(s, e);
    WakeAllThread(s, q, result, s.active);
    forall t ensures t in Wakeup(s, e, result).threads <==> t in s.threads {
      WakeAllThread(s, q, result, t);
    }
    forall t | t in s.threads && t in Wakeup(s, e, result).threads
      ensures Wakeup(s, e, result).threads[t] == ThreadAfter(s, DoWakeup(e, result), t)
    {
      WakeAllThread(s, q, result, t);
      assert t in q <==> s.threads[t].sleep && s.threads[t].on == e;
    }
  }

  lemma BestBefore(threads: map<Tid, Thread>, q: seq<Tid>, i: nat)
    requires |q| > 1 && BestAt(threads, q[..|q| - 1], i) && q[|q| - 1] in threads
    ensures BestAt(threads, q, if threads[q[|q| - 1]].prio < threads[q[i]].prio then |q| - 1 else i)
  {
    var n := |q| - 1;
    assert forall j :: 0 <= j < n ==> q[..n][j] == q[j];
  }

  /** The loop of sch_wakeone finds the first of the best. */
  lemma {:induction false} BestIsFirst(threads: map<Tid, Thread>, q: seq<Tid>) returns (i: nat)
    requires q != [] && forall t :: t in q ==> t in threads
    ensures BestAt(threads, q, i) && q[i] == Best(threads, q)
  {
    hide BestAt;
    var n := |q| - 1;
    assert q == q[..n] + [q[n]];
    if n == 0 {
      i := 0;
      BestAlone(threads, q);
    } else {
      i := BestIsFirst(threads, q[..n]);
      assert q[n] in q;
      BestIndex(threads, q[..n], i);
      BestBefore(threads, q, i);
      i := if threads[q[n]].prio < threads[q[i]].prio then n else i;
    }
  }

  lemma BestAlone(threads: map<Tid, Thread>, q: seq<Tid>)
    requires |q| == 1 && q[0] in threads
    ensures BestAt(threads, q, 0)
  {
  }

  lemma BestIndex(threads: map<Tid, Thread>, q: seq<Tid>, i: int)
    requires BestAt(threads, q, i)
    ensures 0 <= i < |q| && q[i] in threads
  {
  }

  lemma BestOnly(threads: map<Tid, Thread>, q: seq<Tid>, t: Tid, u: Tid)
    requires FirstBest(threads, q, t) && FirstBest(threads, q, u)
    ensures t == u
  {
  }

  /** sch_wakeone changes the first of the best sleepers and no other thread. */
  lemma WakeOneThreads(s: State, e: Evt)
    requires SleepPlaced(s)
    ensures ThreadsAfter(s, DoWakeOne(e), WakeOne(s, e))
  {
    var q := Sleepers(s, e);
    hide BestAt, Best, RunqEnqueue;
    if q == [] {
      NoBest(s.threads, q);
    } else {
      var top := Best(s.threads, q);
      assert top in q;
      var i := BestIsFirst(s.threads, q);
      assert FirstBest(s.threads, q, top);
      EnqueueOnly(Awake(s, top, 0), top);
      forall t | FirstBest(s.threads, q, t) ensures t == top {
        BestOnly(s.threads, q, t, top);
      }
    }
  }

  lemma NoBest(threads: map<Tid, Thread>, q: seq<Tid>)
    requires q == []
    ensures forall t :: !FirstBest(threads, q, t)
  {
  }

  lemma EnqueueOnly(s: State, t: Tid)
    ensures RunqEnqueue(s, t) == s.(runq := RunqEnqueue(s, t).runq, resched := RunqEnqueue(s, t).resched)
  {
  }

  /** sch_unsleep, and so sch_signal and sch_cancel_sleep, change the sleeper named and no other thread. */
  lemma UnsleepThreads(s: State, x: Tid, result: int)
    requires x in s.threads
    ensures ThreadsAfter(s, DoUnsleep(x, result), Unsleep(s, x, result))
    ensures Unsleep(s, x, result).locks == s.locks && Unsleep(s, x, result).active == s.active
  {
  }

  lemma SignalThreads(s: State, x: Tid)
    requires x in s.threads
    ensures ThreadsAfter(s, DoSignal(x), Signal(s, x))
  {
    UnsleepThreads(s, x, -4);
  }

  lemma WakesReaped(s: State, e: Evt, t: Tid)
    requires Reaps(s, DoSwitch) && e == s.threads[s.active].exitEvent && t in s.threads
    ensures ThreadAfter(s, DoWakeup(e, 0), t) == ThreadAfter(s, DoSwitch, t)
  {
  }

  lemma ReapThreads(s: State, n: State)
    requires SleepPlaced(n) && n.threads == s.threads && Reaps(s, DoSwitch) && n.locks == s.locks
    ensures var r := Reap(Wakeup(n, s.threads[s.active].exitEvent, 0), s.active);
            ThreadsAfter(s, DoSwitch, r) && r.locks == s.locks
  {
    hide Wakeup, ThreadAfter;
    var e := s.threads[s.active].exitEvent;
    WakeupThreads(n, e, 0);
    forall t | t in s.threads && t != s.active
      ensures Reap(Wakeup(n, e, 0), s.active).threads[t] == ThreadAfter(s, DoSwitch, t)
    {
      WakesReaped(s, e, t);
      SameAfter(s, n, e, t);
    }
  }

  lemma KeptThreads(s: State, n: State)
    requires n.threads == s.threads && !Reaps(s, DoSwitch)
    ensures ThreadsAfter(s, DoSwitch, n)
  {
    hide ThreadAfter;
    forall t | t in s.threads ensures ThreadAfter(s, DoSwitch, t) == s.threads[t] {
      NotReaped(s, t);
    }
  }

  /** A switch changes no thread but the zombie it reaps and those that wait for one to go. */
  lemma SwitchThreads(s: State, idle: Tid)
    requires Inv(s, idle)
    ensures ThreadsAfter(s, DoSwitch, SwitchTo(s)) && SwitchTo(s).locks == s.locks
  {
    hide Wakeup, ThreadsAfter, PutBack, Ranked, RunqPlaced, Reap;
    if s.resched != No && s.locks == 0 {
      var b := PutBack(s);
      PutBackQueue(s, idle);
      assert b.runq[0] in b.runq;
      var n := b.(runq := b.runq[1..], active := b.runq[0], resched := No);
      if s.threads[s.active].zombie {
        SameSleepers(s, n);
        ReapThreads(s, n);
      } else {
        KeptThreads(s, n);
      }
    } else {
      KeptThreads(s, s);
    }
  }

  lemma SameAfter(s: State, n: State, e: Evt, t: Tid)
    requires n.threads == s.threads && t in s.threads
    ensures ThreadAfter(n, DoWakeup(e, 0), t) == ThreadAfter(s, DoWakeup(e, 0), t)
  {
  }

  lemma NotReaped(s: State, t: Tid)
    requires t in s.threads && !Reaps(s, DoSwitch)
    ensures ThreadAfter(s, DoSwitch, t) == s.threads[t]
  {
  }

  lemma CancelThreads(s: State)
    requires s.active in s.threads && s.locks > 0
    ensures ThreadsAfter(s, DoCancelSleep, CancelSleep(s)) && CancelSleep(s).locks == s.locks - 1
  {
    UnsleepThreads(s, s.active, 0);
  }

  lemma SetPrioThreads(s: State, x: Tid, prio: int)
    requires x in s.threads
    ensures ThreadsAfter(s, DoSetPrio(x, prio), SetPrio(s, x, prio))
  {
    hide Without, RunqEnqueue;
    EnqueueOnly(s.(threads := s.threads[x := s.threads[x].(prio := prio)], runq := Without(s.runq, x)), x);
  }

  lemma ResumeThreads(s: State, x: Tid)
    requires x in s.threads
    ensures ThreadsAfter(s, DoResume(x), Resume(s, x))
  {
    hide RunqEnqueue;
    EnqueueOnly(s.(threads := s.threads[x := s.threads[x].(suspend := false)]), x);
  }

  /** sch_elapse takes the time from a round robin thread, and adds a quantum to what is not left. */
  lemma ElapseThreads(s: State, nsec: nat)
    requires s.active in s.threads
    ensures ThreadsAfter(s, DoElapse(nsec), Elapse(s, nsec))
  {
  }

  /** Every step does to every thread what is written out above. */
  lemma StepThreads(s: State, idle: Tid, step: Step)
    requires Inv(s, idle) && Enabled(s, idle, step)
    ensures ThreadsAfter(s, step, Next(s, idle, step))
  {
    match step
    case DoWakeup(e, result) => WakeupThreads(s, e, result);
    case DoWakeOne(e) => WakeOneThreads(s, e);
    case DoRequeue(l, r) => RequeueThreads(s, l, r);
    case DoCancelSleep => CancelThreads(s);
    case DoUnsleep(t, result) => UnsleepThreads(s, t, result);
    case DoSignal(t) => SignalThreads(s, t);
    case DoResume(t) => ResumeThreads(s, t);
    case DoElapse(nsec) => ElapseThreads(s, nsec);
    case DoSetPrio(t, prio) => SetPrioThreads(s, t, prio);
    case DoSwitch => SwitchThreads(s, idle);
    case _ => OtherThreads(s, idle, step);
  }

  lemma RequeueThreads(s: State, l: Evt, r: Evt)
    requires SleepPlaced(s)
    ensures ThreadsAfter(s, DoRequeue(l, r), Requeue(s, l, r))
  {
    assert Sleepers(s, l) != [] ==> Sleepers(s, l)[0] in Sleepers(s, l);
  }

  lemma OtherThreads(s: State, idle: Tid, step: Step)
    requires Enabled(s, idle, step)
    requires step.DoPrepareSleep? || step.DoContinueSleep? || step.DoLock? || step.DoUnlock? || step.DoYield? || step.DoSuspend?
             || step.DoStart? || step.DoStop? || step.DoTestExit?
    ensures ThreadsAfter(s, step, Next(s, idle, step))
  {
    hide Without;
    forall t ensures !Wakes(s, step, t) {}
    hide Wakes;
  }

  // ----- sleep queues -----

  ghost predicate QueueAfter(s: State, step: Step, e: Evt, r: seq<Tid>) {
    var q := Sleepers(s, e);
    match step
    case DoWakeup(x, _) => r == if e == x then [] else q
    case DoSwitch => r == if Reaps(s, step) && e == s.threads[s.active].exitEvent then [] else q
    case DoPrepareSleep(x) => r == if e == x then q + [s.active] else q
    case DoRequeue(x, y) =>
      if Sleepers(s, x) == [] then r == q
      else r == (if e == x then q[1..] else q) + if e == y then [Sleepers(s, x)[0]] else []
    case _ =>
      && (forall t :: t in q && Wakes(s, step, t) ==> r == Without(q, t))
      && ((forall t :: t in q ==> !Wakes(s, step, t)) ==> r == q)
  }

  /** Sleepers leave their queue when they are woken, and join at the end. */
  ghost predicate QueuesAfter(s: State, step: Step, n: State) {
    forall e :: QueueAfter(s, step, e, Sleepers(n, e))
  }

  lemma EnqueueSleepers(s: State, t: Tid, e: Evt)
    ensures Sleepers(RunqEnqueue(s, t), e) == Sleepers(s, e)
  {
  }

  lemma AwakeSleepers(s: State, t: Tid, result: int, e: Evt)
    requires t in s.threads
    ensures Sleepers(Awake(s, t, result), e) == if e == s.threads[t].on then Without(Sleepers(s, e), t) else Sleepers(s, e)
    ensures Sleepers(Wake(s, t, result), e) == Sleepers(Awake(s, t, result), e)
  {
  }

  lemma {:induction false} WakeAllSleepers(s: State, q: seq<Tid>, result: int, x: Evt, e: Evt)
    requires Distinct(q) && Sleepers(s, x) == q && forall t :: t in q ==> t in s.threads && s.threads[t].on == x
    ensures Sleepers(WakeAll(s, q, result), e) == if e == x then [] else Sleepers(s, e)
    decreases |q|
  {
    if q != [] {
      var w := Wake(s, q[0], result);
      AwakeSleepers(s, q[0], result, x);
      AwakeSleepers(s, q[0], result, e);
      WithoutFirst(q);
      forall t | t in q[1..] ensures t in w.threads && w.threads[t].on == x {
        assert t in q;
      }
      WakeAllSleepers(w, q[1..], result, x, e);
    }
  }

  lemma WakeupQueues(s: State, x: Evt, result: int, e: Evt)
    requires SleepPlaced(s)
    ensures Sleepers(Wakeup(s, x, result), e) == if e == x then [] else Sleepers(s, e)
  {
    WakeAllSleepers(s, Sleepers(s, x), result, x, e);
  }

  lemma WakeOneQueues(s: State, x: Evt, e: Evt)
    requires SleepPlaced(s)
    ensures QueueAfter(s, DoWakeOne(x), e, Sleepers(WakeOne(s, x), e))
  {
    hide BestAt, Best, RunqEnqueue;
    var q := Sleepers(s, x);
    if q == [] {
      NoBest(s.threads, q);
    } else {
      var top := Best(s.threads, q);
      assert top in q;
      var i := BestIsFirst(s.threads, q);
      assert FirstBest(s.threads, q, top);
      EnqueueSleepers(Awake(s, top, 0), top, e);
      AwakeSleepers(s, top, 0, e);
      forall t | FirstBest(s.threads, q, t) ensures t == top {
        BestOnly(s.threads, q, t, top);
      }
    }
  }

  lemma UnsleepQueues(s: State, x: Tid, result: int, e: Evt)
    requires SleepPlaced(s) && x in s.threads
    ensures QueueAfter(s, DoUnsleep(x, result), e, Sleepers(Unsleep(s, x, result), e))
  {
    hide RunqEnqueue;
    if s.threads[x].sleep {
      AwakeSleepers(s, x, result, e);
    }
  }

  lemma SignalQueues(s: State, x: Tid, e: Evt)
    requires SleepPlaced(s) && x in s.threads
    ensures QueueAfter(s, DoSignal(x), e, Sleepers(Signal(s, x), e))
  {
    hide Unsleep;
    if x != s.active {
      UnsleepQueues(s, x, -EINTR, e);
    }
  }

  lemma CancelQueues(s: State, e: Evt)
    requires SleepPlaced(s) && s.active in s.threads && s.locks > 0
    ensures QueueAfter(s, DoCancelSleep, e, Sleepers(CancelSleep(s), e))
  {
    UnsleepThreads(s, s.active, 0);
    hide Unsleep;
    UnsleepQueues(s, s.active, 0, e);
  }

  lemma SwitchQueues(s: State, idle: Tid, e: Evt)
    requires Inv(s, idle)
    ensures QueueAfter(s, DoSwitch, e, Sleepers(SwitchTo(s), e))
  {
    if s.resched != No && s.locks == 0 {
      hide Wakeup;
      var b := PutBack(s);
      PutBackQueue(s, idle);
      assert b.runq[0] in b.runq;
      var n := b.(runq := b.runq[1..], active := b.runq[0], resched := No);
      if s.threads[s.active].zombie {
        SameSleepers(s, n);
        WakeupQueues(n, s.threads[s.active].exitEvent, 0, e);
      }
    }
  }

  lemma RequeueQueues(s: State, l: Evt, r: Evt, e: Evt)
    requires SleepPlaced(s)
    ensures QueueAfter(s, DoRequeue(l, r), e, Sleepers(Requeue(s, l, r), e))
  {
    assert Sleepers(s, l) != [] ==> Sleepers(s, l)[0] in Sleepers(s, l);
  }

  /** The steps that neither wake a thread nor put one to sleep. */
  predicate LeavesQueues(step: Step) {
    || step.DoContinueSleep? || step.DoLock? || step.DoUnlock? || step.DoYield? || step.DoSuspend? || step.DoResume?
    || step.DoElapse? || step.DoStart? || step.DoStop? || step.DoTestExit? || step.DoSetPrio?
  }

  lemma OtherQueues(s: State, idle: Tid, step: Step)
    requires Enabled(s, idle, step) && LeavesQueues(step)
    ensures Next(s, idle, step).sleepq == s.sleepq
  {
    hide InsertAt, Behind, Without, Charge;
  }

  lemma SameQueue(s: State, step: Step, n: State, e: Evt)
    requires LeavesQueues(step) && n.sleepq == s.sleepq
    ensures QueueAfter(s, step, e, Sleepers(n, e))
  {
    forall t ensures !Wakes(s, step, t) {}
    hide Wakes;
  }

  /** Every step does to every sleep queue what is written out above. */
  lemma StepQueue(s: State, idle: Tid, step: Step, e: Evt)
    requires Inv(s, idle) && Enabled(s, idle, step)
    ensures QueueAfter(s, step, e, Sleepers(Next(s, idle, step), e))
  {
    hide QueueAfter, Wakeup, WakeOne, CancelSleep, Unsleep, Signal, SwitchTo, Requeue, Ranked, RunqPlaced;
    match step
    case DoWakeup(x, result) => WakeupQueue(s, x, result, e);
    case DoWakeOne(x) => WakeOneQueues(s, x, e);
    case DoCancelSleep => CancelQueues(s, e);
    case DoUnsleep(t, result) => UnsleepQueues(s, t, result, e);
    case DoSignal(t) => SignalQueues(s, t, e);
    case DoSwitch => SwitchQueues(s, idle, e);
    case DoRequeue(l, r) => RequeueQueues(s, l, r, e);
    case DoPrepareSleep(x) => PrepareQueue(s, x, e);
    case _ =>
      OtherQueues(s, idle, step);
      SameQueue(s, step, Next(s, idle, step), e);
  }

  lemma WakeupQueue(s: State, x: Evt, result: int, e: Evt)
    requires SleepPlaced(s)
    ensures QueueAfter(s, DoWakeup(x, result), e, Sleepers(Wakeup(s, x, result), e))
  {
    hide Wakeup;
    WakeupQueues(s, x, result, e);
  }

  lemma PrepareQueue(s: State, x: Evt, e: Evt)
    requires s.active in s.threads
    ensures QueueAfter(s, DoPrepareSleep(x), e, Sleepers(PrepareSleep(s, x), e))
  {
  }

  // ----- flags -----

  /** A thread that is woken or resumed outranks the active one. */
  ghost predicate Outranks(s: State, t: Tid) {
    && t in s.threads && s.active in s.threads && t != s.active && !s.threads[t].suspend
    && s.threads[t].prio < s.threads[s.active].prio
  }

  /** Some thread on the run queue has at least this priority. */
  ghost predicate Rivalled(s: State, prio: int) {
    if s.runq == [] then prio > 255 else exists t :: t in s.runq && t in s.threads && s.threads[t].prio <= prio
  }

  ghost function ReschedAfter(s: State, step: Step): Resched
    requires s.active in s.threads
  {
    var th := s.threads[s.active];
    match step
    case DoContinueSleep => if th.sleep then Switch else s.resched
    case DoYield => if Rivalled(s, th.prio) then Switch else s.resched
    case DoElapse(nsec) => if th.roundRobin && th.timeleft <= nsec && Rivalled(s, th.prio) then Switch else s.resched
    case DoSuspend(t) => if t == s.active then Switch else s.resched
    case DoTestExit => if th.exit then Switch else s.resched
    case DoResume(t) =>
      if t in s.threads && t != s.active && !s.threads[t].sleep && !s.threads[t].zombie && s.threads[t].prio < th.prio
         && s.resched == No then Preempt else s.resched
    case DoSetPrio(t, prio) =>
      var preempts := if t == s.active then Rivalled(s, prio - 1)
                      else t in s.threads && Runnable(s.threads[t]) && prio < th.prio;
      if preempts && s.resched == No then Preempt else s.resched
    case _ =>
      if step == DoSignal(s.active) then Preempt
      // it is only preemption when no reschedule is pending
      else if s.resched == No && exists t :: Wakes(s, step, t) && Outranks(s, t) then Preempt
      else s.resched
  }

  ghost predicate FlagsAfter(s: State, step: Step, n: State)
    requires s.active in s.threads
  {
    && n.locks == (match step
                   case DoPrepareSleep(_) => s.locks + 1
                   case DoLock => s.locks + 1
                   case DoContinueSleep => 0
                   case DoCancelSleep => s.locks - 1
                   case DoUnlock => s.locks - 1
                   case _ => s.locks)
    && (step != DoSwitch ==> n.active == s.active && n.resched == ReschedAfter(s, step))
  }

  lemma {:induction false} WakeAllResched(s: State, q: seq<Tid>, result: int)
    requires s.active in s.threads && forall t :: t in q ==> t in s.threads
    ensures WakeAll(s, q, result).resched ==
              if s.resched == No && exists t :: t in q && t != s.active && s.threads[t].prio < s.threads[s.active].prio then Preempt
              else s.resched
    decreases |q|
  {
    if q != [] {
      var w := Wake(s, q[0], result);
      WakeAllResched(w, q[1..], result);
      assert forall t :: t in s.threads ==> w.threads[t].prio == s.threads[t].prio;
      assert forall t :: t in q <==> t == q[0] || t in q[1..];
    }
  }

  lemma WakeupFlags(s: State, idle: Tid, e: Evt, result: int)
    requires Inv(s, idle) && NoneSuspended(s, e)
    ensures FlagsAfter(s, DoWakeup(e, result), Wakeup(s, e, result))
  {
    WakeupThreads(s, e, result);
    WakeAllResched(s, Sleepers(s, e), result);
    hide WakeAll;
    assert forall t :: Wakes(s, DoWakeup(e, result), t) <==> t in Sleepers(s, e);
  }

  lemma WakeOneFlags(s: State, idle: Tid, e: Evt)
    requires Inv(s, idle) && WakeOneFits(s, e)
    ensures FlagsAfter(s, DoWakeOne(e), WakeOne(s, e))
  {
    hide BestAt, Best, InsertAt, Behind, Ranked, RunqPlaced;
    var q := Sleepers(s, e);
    if q == [] {
      NoBest(s.threads, q);
    } else {
      var top := Best(s.threads, q);
      assert top in q;
      var i := BestIsFirst(s.threads, q);
      assert FirstBest(s.threads, q, top);
      forall t | FirstBest(s.threads, q, t) ensures t == top {
        BestOnly(s.threads, q, t, top);
      }
      assert Wakes(s, DoWakeOne(e), top) && forall t :: Wakes(s, DoWakeOne(e), t) ==> t == top;
    }
  }

  lemma UnsleepFlags(s: State, x: Tid, result: int)
    requires s.active in s.threads && x in s.threads && (x == s.active || !s.threads[x].suspend)
    ensures FlagsAfter(s, DoUnsleep(x, result), Unsleep(s, x, result))
  {
    hide InsertAt, Behind, Without;
    assert forall t :: Wakes(s, DoUnsleep(x, result), t) ==> t == x;
    assert Wakes(s, DoUnsleep(x, result), x) <==> s.threads[x].sleep;
  }

  lemma SignalFlags(s: State, x: Tid)
    requires s.active in s.threads && x in s.threads && (x == s.active || !s.threads[x].suspend)
    ensures FlagsAfter(s, DoSignal(x), Signal(s, x))
  {
    hide InsertAt, Behind, Without;
    assert forall t :: Wakes(s, DoSignal(x), t) ==> t == x;
    assert Wakes(s, DoSignal(x), x) <==> x != s.active && s.threads[x].sleep;
  }

  lemma CancelFlags(s: State)
    requires s.active in s.threads && s.locks > 0
    ensures FlagsAfter(s, DoCancelSleep, CancelSleep(s))
  {
    hide InsertAt, Behind, Without;
    assert forall t :: Wakes(s, DoCancelSleep, t) <==> t == s.active && s.threads[t].sleep;
  }

  /** The test on the head of the run queue is one on all its threads. */
  lemma TopRivals(s: State, idle: Tid, prio: int)
    requires Inv(s, idle)
    ensures RunqTop(s) <= prio <==> Rivalled(s, prio)
  {
    if s.runq != [] {
      assert s.runq[0] in s.runq && s.runq[0..] == s.runq;
      forall t | t in s.runq ensures s.threads[s.runq[0]].prio <= s.threads[t].prio {
        SortedFrom(s.threads, s.runq, 0, t);
      }
    }
  }

  lemma RivalFlags(s: State, idle: Tid, step: Step)
    requires Inv(s, idle) && Enabled(s, idle, step) && (step.DoYield? || step.DoElapse?)
    ensures FlagsAfter(s, step, Next(s, idle, step))
  {
    hide Rivalled, RunqTop, RunqPlaced, SleepPlaced, Ranked, Wakes, Outranks;
    TopRivals(s, idle, s.threads[s.active].prio);
  }

  lemma SetPrioFlags(s: State, idle: Tid, x: Tid, prio: int)
    requires Inv(s, idle) && x in s.threads
    ensures FlagsAfter(s, DoSetPrio(x, prio), SetPrio(s, x, prio))
  {
    hide Rivalled, RunqTop, RunqPlaced, SleepPlaced, Ranked, InsertAt, Behind, Without, Wakes, Outranks;
    TopRivals(s, idle, prio - 1);
    if x == s.active {
      assert SetPrio(s, x, prio).resched == ReschedAfter(s, DoSetPrio(x, prio));
    }
  }

  lemma OtherFlags(s: State, idle: Tid, step: Step)
    requires Enabled(s, idle, step)
    requires step.DoRequeue? || step.DoPrepareSleep? || step.DoContinueSleep? || step.DoLock? || step.DoUnlock? || step.DoSuspend?
             || step.DoResume? || step.DoStart? || step.DoStop? || step.DoTestExit?
    ensures FlagsAfter(s, step, Next(s, idle, step))
  {
    hide InsertAt, Behind, Without;
    assert forall t :: !Wakes(s, step, t);
  }

  /** Every step asks for a reschedule exactly as written out above. */
  lemma StepFlags(s: State, idle: Tid, step: Step)
    requires Inv(s, idle) && Enabled(s, idle, step)
    ensures FlagsAfter(s, step, Next(s, idle, step))
  {
    hide FlagsAfter, Wakeup, WakeOne, CancelSleep, Unsleep, Signal, SwitchTo, SetPrio, Ranked, RunqPlaced;
    match step
    case DoWakeup(e, result) => WakeupFlags(s, idle, e, result);
    case DoWakeOne(e) => WakeOneFlags(s, idle, e);
    case DoCancelSleep => CancelFlags(s);
    case DoUnsleep(t, result) => UnsleepFlags(s, t, result);
    case DoSignal(t) => SignalFlags(s, t);
    case DoYield => RivalFlags(s, idle, step);
    case DoElapse(_) => RivalFlags(s, idle, step);
    case DoSetPrio(t, prio) => SetPrioFlags(s, idle, t, prio);
    case DoSwitch => SwitchFlags(s, idle);
    case _ => OtherFlags(s, idle, step);
  }

  lemma SwitchFlags(s: State, idle: Tid)
    requires Inv(s, idle)
    ensures FlagsAfter(s, DoSwitch, SwitchTo(s))
  {
    hide SwitchTo;
    SwitchThreads(s, idle);
  }

  /** After a switch no reschedule is pending, unless the zombie it reaped was waited for by a thread that outranks the new one. */
  lemma SwitchResched(s: State, idle: Tid)
    requires Inv(s, idle) && Enabled(s, idle, DoSwitch)
    ensures var n := SwitchTo(s);
            if s.resched == No || s.locks > 0 then n == s
            else
              && n.active in s.threads
              && n.resched == if exists t :: Wakes(s, DoSwitch, t) && s.threads[t].prio < s.threads[n.active].prio then Preempt else No
  {
    if s.resched != No && s.locks == 0 {
      hide Wakeup;
      var b := PutBack(s);
      PutBackQueue(s, idle);
      assert b.runq[0] in b.runq;
      var n := b.(runq := b.runq[1..], active := b.runq[0], resched := No);
      if s.threads[s.active].zombie {
        var e := s.threads[s.active].exitEvent;
        SameSleepers(s, n);
        WakeupThreads(n, e, 0);
        WakeupResched(n, e);
        assert forall t :: Wakes(s, DoSwitch, t) <==> t in Sleepers(n, e);
      }
    }
  }

  lemma WakeupResched(s: State, e: Evt)
    requires SleepPlaced(s) && s.active in s.threads && !s.threads[s.active].sleep
    ensures Wakeup(s, e, 0).resched ==
              if s.resched == No && exists t :: t in Sleepers(s, e) && s.threads[t].prio < s.threads[s.active].prio then Preempt
              else s.resched
  {
    WakeAllResched(s, Sleepers(s, e), 0);
  }

  // ----- what a sleeper is told -----

  /** In one step: the result of a thread changes exactly when the step ends its sleep, and then to that of the step. */
  lemma StepResult(s: State, idle: Tid, step: Step, t: Tid)
    requires Inv(s, idle) && Enabled(s, idle, step) && t in s.threads && t in Next(s, idle, step).threads
    ensures var th := Next(s, idle, step).threads[t];
            && (Wakes(s, step, t) ==> !th.sleep && th.slpret == WakeResult(step))
            && (!Wakes(s, step, t) ==> (s.threads[t].sleep ==> th.sleep) && th.slpret == s.threads[t].slpret)
  {
    hide Next, Enabled;
    StepThreads(s, idle, step);
  }

  /** Thread t is there in all states from i to j. */
  ghost predicate There(states: seq<State>, i: nat, j: nat, t: Tid) {
    j < |states| && forall k :: i <= k <= j ==> t in states[k].threads
  }

  /**
   A thread that sleeps at i and does not at m was woken in between, and what sch_continue_sleep
   returns to it, its slpret, is the result of the last step that woke it.
   */
  lemma {:induction false} SleepResult(states: seq<State>, steps: seq<Step>, idle: Tid, i: nat, m: nat, t: Tid) returns (j: nat)
    requires IsRun(states, steps, idle) && i < m && There(states, i, m, t)
    requires states[i].threads[t].sleep && !states[m].threads[t].sleep
    ensures i <= j < m && Wakes(states[j], steps[j], t)
    ensures forall k :: j < k < m ==> !Wakes(states[k], steps[k], t)
    ensures states[m].threads[t].slpret == WakeResult(steps[j])
    decreases m
  {
    hide Next, Enabled, Wakes, Inv;
    var s, n := states[m - 1], states[m];
    assert Takes(states[m - 1], states[m - 1 + 1], idle, steps[m - 1]);
    RunInv(states, steps, idle, m - 1);
    StepResult(s, idle, steps[m - 1], t);
    if Wakes(s, steps[m - 1], t) {
      j := m - 1;
    } else {
      j := SleepResult(states, steps, idle, i, m - 1, t);
    }
  }
}
