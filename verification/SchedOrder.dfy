/** The order in which threads of equal priority run, over every step and every run of the scheduler. */
module SchedOrder {
  import opened Queues
  import opened SchedSpec
  import opened SchedInv
  import opened SchedSteps

  // ----- joining the run queue -----

  /** q with thread t added between `ahead` and `behind`, the rest of q staying in order. */
  ghost predicate Joined(q: seq<Tid>, r: seq<Tid>, t: Tid, ahead: seq<Tid>, behind: seq<Tid>) {
    q == ahead + behind && r == ahead + [t] + behind
  }

  /** A thread that becomes able to run goes behind all of higher or equal priority, and moves no other thread. */
  lemma EnqueueOrder(s: State, t: Tid) returns (ahead: seq<Tid>, behind: seq<Tid>)
    requires Sorted(s.threads, s.runq)
    ensures Joined(s.runq, RunqEnqueue(s, t).runq, t, ahead, behind)
    ensures forall a :: a in ahead ==> Prio(s.threads, a) <= Prio(s.threads, t)
    ensures forall b :: b in behind ==> Prio(s.threads, b) > Prio(s.threads, t)
  {
    var i := Behind(s.threads, s.runq, Prio(s.threads, t));
    ahead, behind := s.runq[..i], s.runq[i..];
    forall b | b in behind ensures Prio(s.threads, b) > Prio(s.threads, t) {
      SortedFrom(s.threads, s.runq, i, b);
    }
  }

  /** A preempted thread goes behind higher priorities only, ahead of all of its own, and moves no other thread. */
  lemma InsertOrder(s: State, t: Tid) returns (ahead: seq<Tid>, behind: seq<Tid>)
    requires Sorted(s.threads, s.runq)
    ensures Joined(s.runq, RunqInsert(s, t).runq, t, ahead, behind)
    ensures forall a :: a in ahead ==> Prio(s.threads, a) < Prio(s.threads, t)
    ensures forall b :: b in behind ==> Prio(s.threads, b) >= Prio(s.threads, t)
  {
    var i := Before(s.threads, s.runq, Prio(s.threads, t));
    ahead, behind := s.runq[..i], s.runq[i..];
    forall b | b in behind ensures Prio(s.threads, b) >= Prio(s.threads, t) {
      SortedFrom(s.threads, s.runq, i, b);
    }
  }

  /**
   Scheduling order at a switch, as POSIX has it for SCHED_FIFO: the thread that ran is put ahead of
   its priority when preempted and behind it when it yields or its quantum is up, and nowhere when
   it cannot run; the first thread in the resulting order runs.
   */
  lemma SwitchOrder(s: State, idle: Tid) returns (ahead: seq<Tid>, behind: seq<Tid>)
    requires Inv(s, idle) && s.resched != No && s.locks == 0
    ensures !Runnable(s.threads[s.active]) ==> s.runq != [] && SwitchTo(s).active == s.runq[0]
    ensures Runnable(s.threads[s.active]) ==> Joined(s.runq, [SwitchTo(s).active] + SwitchTo(s).runq, s.active, ahead, behind)
    ensures Runnable(s.threads[s.active]) && s.resched == Preempt ==>
              && (forall a :: a in ahead ==> Prio(s.threads, a) < Prio(s.threads, s.active))
              && (forall b :: b in behind ==> Prio(s.threads, b) >= Prio(s.threads, s.active))
    ensures Runnable(s.threads[s.active]) && s.resched == Switch ==>
              && (forall a :: a in ahead ==> Prio(s.threads, a) <= Prio(s.threads, s.active))
              && (forall b :: b in behind ==> Prio(s.threads, b) > Prio(s.threads, s.active))
  {
    ahead, behind := [], [];
    if Runnable(s.threads[s.active]) {
      if s.resched == Preempt {
        ahead, behind := InsertOrder(s, s.active);
      } else {
        ahead, behind := EnqueueOrder(s, s.active);
      }
    }
    SwitchActive(s, idle);
    var b := PutBack(s);
    assert [b.runq[0]] + b.runq[1..] == b.runq;
  }

  /** The thread switched to is the first on the queue with the active thread put back. */
  lemma SwitchActive(s: State, idle: Tid)
    requires Inv(s, idle) && s.resched != No && s.locks == 0
    ensures PutBack(s).runq != [] && SwitchTo(s).active == PutBack(s).runq[0]
  {
    PutBackQueue(s, idle);
    var b := PutBack(s);
    var n := b.(runq := b.runq[1..], active := b.runq[0], resched := No);
    var e := s.threads[s.active].exitEvent;
    SameSleepers(s, n);
    WakeAllActive(n, Sleepers(n, e), 0);
  }

  lemma {:induction false} WakeAllActive(s: State, q: seq<Tid>, result: int)
    ensures WakeAll(s, q, result).active == s.active
    decreases |q|
  {
    if q != [] && q[0] in s.threads {
      WakeAllActive(Wake(s, q[0], result), q[1..], result);
    }
  }

  // ----- who is ahead of whom -----

  ghost predicate Ahead(q: seq<Tid>, a: Tid, b: Tid) {
    exists i, j :: 0 <= i < j < |q| && q[i] == a && q[j] == b
  }

  lemma AheadInsert(q: seq<Tid>, k: nat, t: Tid, a: Tid, b: Tid)
    requires k <= |q| && Ahead(q, a, b)
    ensures Ahead(InsertAt(q, k, t), a, b)
  {
    var i, j :| 0 <= i < j < |q| && q[i] == a && q[j] == b;
    var r := InsertAt(q, k, t);
    assert r[if i < k then i else i + 1] == a && r[if j < k then j else j + 1] == b;
  }

  lemma {:induction false} AheadWithout(q: seq<Tid>, t: Tid, a: Tid, b: Tid)
    requires Ahead(q, a, b) && a != t && b != t
    ensures Ahead(Without(q, t), a, b)
  {
    var i, j :| 0 <= i < j < |q| && q[i] == a && q[j] == b;
    var w := Without(q[1..], t);
    if i == 0 {
      assert q[1..][j - 1] == b;
      assert b in w;
      var k :| 0 <= k < |w| && w[k] == b;
      assert Without(q, t) == [a] + w;
      assert ([a] + w)[0] == a && ([a] + w)[k + 1] == b;
    } else {
      assert q[1..][i - 1] == a && q[1..][j - 1] == b;
      AheadWithout(q[1..], t, a, b);
      var k, l :| 0 <= k < l < |w| && w[k] == a && w[l] == b;
      assert q[0] != t ==> ([q[0]] + w)[k + 1] == a && ([q[0]] + w)[l + 1] == b;
    }
  }

  lemma AheadTail(q: seq<Tid>, a: Tid, b: Tid)
    requires q != [] && Ahead(q, a, b) && a != q[0]
    ensures Ahead(q[1..], a, b) && b in q[1..]
  {
    var i, j :| 0 <= i < j < |q| && q[i] == a && q[j] == b;
    assert q[1..][i - 1] == a && q[1..][j - 1] == b;
  }

  /** A thread that joins the run queue is behind its equals, and moves no other. */
  lemma EnqueueAhead(s: State, t: Tid, a: Tid, b: Tid)
    requires Sorted(s.threads, s.runq) && a in s.runq
    ensures Ahead(s.runq, a, b) ==> Ahead(RunqEnqueue(s, t).runq, a, b)
    ensures Prio(s.threads, a) <= Prio(s.threads, t) ==> Ahead(RunqEnqueue(s, t).runq, a, t)
  {
    var i := Behind(s.threads, s.runq, Prio(s.threads, t));
    var r := InsertAt(s.runq, i, t);
    if Ahead(s.runq, a, b) { AheadInsert(s.runq, i, t, a, b); }
    if Prio(s.threads, a) <= Prio(s.threads, t) {
      var k :| 0 <= k < |s.runq| && s.runq[k] == a;
      assert r[i] == t && (k < i ==> r[k] == a);
    }
  }

  /** A preempted thread is ahead of its equals, and moves no other. */
  lemma InsertAhead(s: State, t: Tid, a: Tid, b: Tid)
    requires Sorted(s.threads, s.runq) && a in s.runq
    ensures Ahead(s.runq, a, b) ==> Ahead(RunqInsert(s, t).runq, a, b)
    ensures Prio(s.threads, t) <= Prio(s.threads, a) ==> Ahead(RunqInsert(s, t).runq, t, a)
  {
    var i := Before(s.threads, s.runq, Prio(s.threads, t));
    var r := InsertAt(s.runq, i, t);
    if Ahead(s.runq, a, b) { AheadInsert(s.runq, i, t, a, b); }
    if Prio(s.threads, t) <= Prio(s.threads, a) {
      var k :| 0 <= k < |s.runq| && s.runq[k] == a;
      assert r[i] == t && (i <= k ==> r[k + 1] == a);
    }
  }

  lemma WakeSorted(s: State, t: Tid, result: int)
    requires Sorted(s.threads, s.runq) && t in s.threads
    ensures Sorted(Wake(s, t, result).threads, Wake(s, t, result).runq)
    ensures forall x :: Prio(Wake(s, t, result).threads, x) == Prio(s.threads, x)
  {
    var a := Awake(s, t, result);
    SortedSame(s.threads, a.threads, s.runq);
    InsertSorted(a.threads, a.runq, Behind(a.threads, a.runq, Prio(a.threads, t)), t);
  }

  /** Waking any number of threads moves none that is queued, and every new one is behind its equals. */
  lemma {:induction false} WakeAllAhead(s: State, q: seq<Tid>, result: int, a: Tid, b: Tid)
    requires Sorted(s.threads, s.runq) && a in s.runq
    ensures var r := WakeAll(s, q, result).runq;
            && (Ahead(s.runq, a, b) ==> Ahead(r, a, b))
            && (b in r && b !in s.runq && Prio(s.threads, a) == Prio(s.threads, b) ==> Ahead(r, a, b))
    decreases |q|
  {
    if q != [] && q[0] in s.threads {
      var n := Wake(s, q[0], result);
      var w := Awake(s, q[0], result);
      WakeSorted(s, q[0], result);
      SortedSame(s.threads, w.threads, s.runq);
      EnqueueAhead(w, q[0], a, b);
      WakeAllAhead(n, q[1..], result, a, b);
    }
  }

  /** Threads of equal priority woken together run in the order in which they went to sleep. */
  lemma {:induction false} WakeAllFifo(s: State, q: seq<Tid>, result: int, a: Tid, b: Tid)
    requires Sorted(s.threads, s.runq) && (forall t :: t in q ==> t in s.threads)
    requires Ahead(q, a, b) && a != s.active && b != s.active && Prio(s.threads, a) == Prio(s.threads, b)
    requires Distinct(q) && b !in s.runq
    ensures Ahead(WakeAll(s, q, result).runq, a, b)
    decreases |q|
  {
    var n := Wake(s, q[0], result);
    WakeSorted(s, q[0], result);
    if q[0] == a {
      AheadRest(q, a, b);
      WakeAllJoins(n, q[1..], result, b);
      WakeAllAhead(n, q[1..], result, a, b);
    } else {
      AheadTail(q, a, b);
      assert q[0] != b by { AheadRest(q, a, b); }
      WakeAllFifo(n, q[1..], result, a, b);
    }
  }

  lemma AheadRest(q: seq<Tid>, a: Tid, b: Tid)
    requires Ahead(q, a, b) && Distinct(q)
    ensures q != [] && b in q[1..] && b != q[0] && a != b
  {
    var i, j :| 0 <= i < j < |q| && q[i] == a && q[j] == b;
    assert q[1..][j - 1] == b;
  }

  lemma {:induction false} WakeAllJoins(s: State, q: seq<Tid>, result: int, x: Tid)
    requires forall t :: t in q ==> t in s.threads
    ensures x in s.runq || (x in q && x != s.active) ==> x in WakeAll(s, q, result).runq
    decreases |q|
  {
    if q != [] {
      WakeAllJoins(Wake(s, q[0], result), q[1..], result, x);
    }
  }

  // ----- every step -----

  /** The step gives thread t another priority. */
  predicate Reprioritised(step: Step, t: Tid) {
    step.DoSetPrio? && step.t == t
  }

  /** The step preempts thread t. */
  predicate Preempted(s: State, step: Step, t: Tid) {
    step == DoSwitch && s.resched == Preempt && t == s.active
  }

  /** The place of b relative to a, which stays queued, after a step from s to n. */
  ghost predicate Ordered(s: State, n: State, step: Step, a: Tid, b: Tid) {
    && (b in s.runq && !Reprioritised(step, b) && Ahead(s.runq, a, b) ==> Ahead(n.runq, a, b))
    && ((b !in s.runq || Reprioritised(step, b)) && Prio(n.threads, a) == Prio(n.threads, b) ==>
          if Preempted(s, step, b) then Ahead(n.runq, b, a) else Ahead(n.runq, a, b))
  }

  lemma WakeOrdered(s: State, t: Tid, result: int, step: Step, a: Tid, b: Tid)
    requires Sorted(s.threads, s.runq) && t in s.threads && a in s.runq && b in RunqEnqueue(Awake(s, t, result), t).runq
    requires step != DoSwitch && !step.DoSetPrio?
    ensures Ordered(s, RunqEnqueue(Awake(s, t, result), t), step, a, b)
  {
    var w := Awake(s, t, result);
    SortedSame(s.threads, w.threads, s.runq);
    EnqueueAhead(w, t, a, b);
  }

  lemma ResumeOrdered(s: State, t: Tid, a: Tid, b: Tid)
    requires Sorted(s.threads, s.runq) && t in s.threads && a in s.runq && b in Resume(s, t).runq
    ensures Ordered(s, Resume(s, t), DoResume(t), a, b)
  {
    var w := s.(threads := s.threads[t := s.threads[t].(suspend := false)]);
    SortedSame(s.threads, w.threads, s.runq);
    EnqueueAhead(w, t, a, b);
  }

  lemma SuspendOrdered(s: State, t: Tid, a: Tid, b: Tid)
    requires t in s.threads && a in s.runq && a in Suspend(s, t).runq && b in Suspend(s, t).runq
    ensures Ordered(s, Suspend(s, t), DoSuspend(t), a, b)
  {
    if Ahead(s.runq, a, b) && t != s.active && Runnable(s.threads[t]) {
      AheadWithout(s.runq, t, a, b);
    }
  }

  lemma SetPrioOrdered(s: State, idle: Tid, t: Tid, prio: int, a: Tid, b: Tid)
    requires Inv(s, idle) && t in s.threads && a in s.runq && a != t && b in SetPrio(s, t, prio).runq
    ensures Ordered(s, SetPrio(s, t, prio), DoSetPrio(t, prio), a, b)
  {
    if t != s.active && Runnable(s.threads[t]) {
      var off := s.(threads := s.threads[t := s.threads[t].(prio := prio)], runq := Without(s.runq, t));
      WithoutSorted(s.threads, s.runq, t);
      SortedSame(s.threads, off.threads, off.runq);
      if Ahead(s.runq, a, b) && b != t { AheadWithout(s.runq, t, a, b); }
      EnqueueAhead(off, t, a, b);
    }
  }

  lemma PutBackOrdered(s: State, idle: Tid, a: Tid, b: Tid)
    requires Inv(s, idle) && a in s.runq && b in PutBack(s).runq
    ensures Ordered(s, PutBack(s), DoSwitch, a, b)
  {
    if Runnable(s.threads[s.active]) {
      if s.resched == Preempt {
        InsertAhead(s, s.active, a, b);
      } else {
        EnqueueAhead(s, s.active, a, b);
      }
    }
  }

  lemma {:induction false} WakeAllPrio(s: State, q: seq<Tid>, result: int, x: Tid)
    ensures Prio(WakeAll(s, q, result).threads, x) == Prio(s.threads, x)
    decreases |q|
  {
    if q != [] && q[0] in s.threads {
      WakeAllPrio(Wake(s, q[0], result), q[1..], result, x);
    }
  }

  lemma WakeupOrdered(s: State, e: Evt, result: int, a: Tid, b: Tid)
    requires Sorted(s.threads, s.runq) && a in s.runq && b in Wakeup(s, e, result).runq
    ensures Ordered(s, Wakeup(s, e, result), DoWakeup(e, result), a, b)
  {
    var q := Sleepers(s, e);
    WakeAllAhead(s, q, result, a, b);
    WakeAllPrio(s, q, result, a);
    WakeAllPrio(s, q, result, b);
  }

  /** The first of the queue is taken off, and a stays. */
  lemma PickOrdered(s: State, idle: Tid, a: Tid, b: Tid)
    requires Inv(s, idle) && a in s.runq && PutBack(s).runq != [] && a != PutBack(s).runq[0]
    requires b in PutBack(s).runq[1..]
    ensures Ordered(s, PutBack(s).(runq := PutBack(s).runq[1..]), DoSwitch, a, b)
  {
    hide Ahead;
    var q := PutBack(s).runq;
    PutBackQueue(s, idle);
    PutBackOrdered(s, idle, a, b);
    assert b != q[0];
    if Ahead(q, a, b) { AheadTail(q, a, b); }
    if Ahead(q, b, a) { AheadTail(q, b, a); }
  }

  /** A zombie leaves: the first of the queue runs, and those waiting for the zombie join it. */
  lemma ReapOrdered(s: State, idle: Tid, n: State, a: Tid, b: Tid)
    requires Inv(s, idle) && s.threads[s.active].zombie && s.runq != []
    requires n == s.(runq := s.runq[1..], active := s.runq[0], resched := No)
    requires a in s.runq && a != s.runq[0] && b in Wakeup(n, s.threads[s.active].exitEvent, 0).runq
    requires b != s.runq[0] && a != s.active && b != s.active
    ensures Ordered(s, Reap(Wakeup(n, s.threads[s.active].exitEvent, 0), s.active), DoSwitch, a, b)
  {
    hide Ahead;
    var e := s.threads[s.active].exitEvent;
    assert s.runq == [s.runq[0]] + s.runq[1..];
    assert Sorted(s.threads, s.runq[1..]);
    if Ahead(s.runq, a, b) { AheadTail(s.runq, a, b); }
    WakeupOrdered(n, e, 0, a, b);
    WakeAllPrio(n, Sleepers(n, e), 0, a);
    WakeAllPrio(n, Sleepers(n, e), 0, b);
  }

  lemma SwitchOrdered(s: State, idle: Tid, a: Tid, b: Tid)
    requires Inv(s, idle) && Enabled(s, idle, DoSwitch) && s.resched != No && s.locks == 0
    requires a in s.runq && a in SwitchTo(s).runq && b in SwitchTo(s).runq && a != b
    ensures Ordered(s, SwitchTo(s), DoSwitch, a, b)
  {
    hide Ahead, Ordered, SleepPlaced, Ranked;
    SwitchInv(s, idle);
    SwitchActive(s, idle);
    PutBackQueue(s, idle);
    var p := PutBack(s);
    var n := p.(runq := p.runq[1..], active := p.runq[0], resched := No);
    assert a != SwitchTo(s).active && b != SwitchTo(s).active;
    if n.active != s.active && s.threads[s.active].zombie {
      ReapOrdered(s, idle, n, a, b);
    } else {
      PickOrdered(s, idle, a, b);
      SameOrder(s, p.(runq := p.runq[1..]), n, DoSwitch, a, b);
    }
  }

  lemma SameOrder(s: State, n: State, n': State, step: Step, a: Tid, b: Tid)
    requires Ordered(s, n, step, a, b) && n'.runq == n.runq && n'.threads == n.threads
    ensures Ordered(s, n', step, a, b)
  {
  }

  /** A step that leaves the run queue alone. */
  lemma SettledOrdered(s: State, n: State, step: Step, a: Tid, b: Tid)
    requires n.runq == s.runq && b in s.runq && !Reprioritised(step, b)
    ensures Ordered(s, n, step, a, b)
  {
  }

  lemma WakeOneOrdered(s: State, e: Evt, a: Tid, b: Tid)
    requires Sorted(s.threads, s.runq) && a in s.runq && b in WakeOne(s, e).runq
    ensures Ordered(s, WakeOne(s, e), DoWakeOne(e), a, b)
  {
    hide Ordered;
    var q := Sleepers(s, e);
    if q != [] && Best(s.threads, q) in s.threads && q[|q| - 1] != s.active {
      WakeOrdered(s, Best(s.threads, q), 0, DoWakeOne(e), a, b);
    } else {
      SettledOrdered(s, WakeOne(s, e), DoWakeOne(e), a, b);
    }
  }

  lemma UnsleepOrdered(s: State, t: Tid, result: int, step: Step, a: Tid, b: Tid)
    requires Sorted(s.threads, s.runq) && t in s.threads && a in s.runq && b in Unsleep(s, t, result).runq
    requires step != DoSwitch && !step.DoSetPrio?
    ensures Ordered(s, Unsleep(s, t, result), step, a, b)
  {
    hide Ordered;
    if s.threads[t].sleep && t != s.active {
      WakeOrdered(s, t, result, step, a, b);
    } else {
      SettledOrdered(s, Unsleep(s, t, result), step, a, b);
    }
  }

  lemma WakingOrder(s: State, idle: Tid, step: Step, a: Tid, b: Tid)
    requires Sorted(s.threads, s.runq) && Enabled(s, idle, step)
    requires step.DoWakeup? || step.DoWakeOne? || step.DoCancelSleep? || step.DoUnsleep? || step.DoSignal?
    requires a in s.runq && b in Next(s, idle, step).runq
    ensures Ordered(s, Next(s, idle, step), step, a, b)
  {
    hide Ordered, SchedSpec.Sorted, Wakeup, WakeOne, Unsleep;
    match step
    case DoWakeup(e, result) => WakeupOrdered(s, e, result, a, b);
    case DoWakeOne(e) => WakeOneOrdered(s, e, a, b);
    case DoCancelSleep =>
      UnsleepOrdered(s, s.active, 0, step, a, b);
      SameOrder(s, Unsleep(s, s.active, 0), CancelSleep(s), step, a, b);
    case DoUnsleep(t, result) => UnsleepOrdered(s, t, result, step, a, b);
    case DoSignal(t) =>
      if t == s.active { SettledOrdered(s, Signal(s, t), step, a, b); } else { UnsleepOrdered(s, t, -EINTR, step, a, b); }
  }

  /**
   In every step two threads that stay queued keep their order, and a thread that joins the run
   queue, or moves in it because its priority is set, goes behind the threads of its priority; only
   a preempted thread goes ahead of them.
   */
  lemma StepOrder(s: State, idle: Tid, step: Step, a: Tid, b: Tid)
    requires Inv(s, idle) && Enabled(s, idle, step) && a != b && !Reprioritised(step, a)
    requires a in s.runq && a in Next(s, idle, step).runq && b in Next(s, idle, step).runq
    ensures Ordered(s, Next(s, idle, step), step, a, b)
  {
    hide Ordered, SchedSpec.Sorted, RunqPlaced, SleepPlaced, Live, Suspend, Resume, SetPrio, SwitchTo, Wakeup, WakeOne, Unsleep;
    match step
    case DoSuspend(t) => SuspendOrdered(s, t, a, b);
    case DoResume(t) => ResumeOrdered(s, t, a, b);
    case DoSetPrio(t, prio) => SetPrioOrdered(s, idle, t, prio, a, b);
    case DoSwitch => if s.resched != No && s.locks == 0 { SwitchOrdered(s, idle, a, b); } else { NoSwitch(s); SettledOrdered(s, s, step, a, b); }
    case DoWakeup(_, _) => WakingOrder(s, idle, step, a, b);
    case DoWakeOne(_) => WakingOrder(s, idle, step, a, b);
    case DoCancelSleep => WakingOrder(s, idle, step, a, b);
    case DoUnsleep(_, _) => WakingOrder(s, idle, step, a, b);
    case DoSignal(_) => WakingOrder(s, idle, step, a, b);
    case _ => SettledOrdered(s, Next(s, idle, step), step, a, b);
  }

  lemma NoSwitch(s: State)
    requires s.active in s.threads && (s.resched == No || s.locks > 0)
    ensures SwitchTo(s) == s
  {
  }

  // ----- every run -----

  /** Thread t is on the run queue in all states from i to j, and its priority is not set between. */
  ghost predicate Queued(states: seq<State>, steps: seq<Step>, i: nat, j: nat, t: Tid)
    requires j < |states| == |steps| + 1
  {
    && (forall k :: i <= k <= j ==> t in states[k].runq)
    && (forall k :: i <= k < j ==> !Reprioritised(steps[k], t))
  }

  /** Only a switch changes who is active. */
  lemma StaysActive(s: State, idle: Tid, step: Step)
    requires Enabled(s, idle, step) && step != DoSwitch
    ensures Next(s, idle, step).active == s.active
  {
    hide WakeAll, Behind, Before, InsertAt, Best;
    match step
    case DoWakeup(e, result) => WakeAllActive(s, Sleepers(s, e), result);
    case _ =>
  }

  /** A thread that is behind another is not the next to run. */
  lemma NotNext(s: State, idle: Tid, step: Step, a: Tid, b: Tid)
    requires Inv(s, idle) && Enabled(s, idle, step) && a in s.runq && b in s.runq && Ahead(s.runq, a, b)
    ensures Next(s, idle, step).active != b
  {
    hide SleepPlaced, Ranked, Ahead, PutBack, SwitchTo, Enabled;
    if step != DoSwitch {
      StaysActive(s, idle, step);
    } else if s.resched != No && s.locks == 0 {
      SwitchActive(s, idle);
      PutBackQueue(s, idle);
      assert b in PutBack(s).runq;
      PutBackOrdered(s, idle, a, b);
      NotFirst(PutBack(s).runq, a, b);
    } else {
      NoSwitch(s);
    }
  }

  lemma NotFirst(q: seq<Tid>, a: Tid, b: Tid)
    requires Distinct(q) && Ahead(q, a, b) && q != []
    ensures q[0] != b
  {
  }

  /** While two threads stay queued, the one behind does not overtake the other and is not run. */
  lemma {:induction false} NoOvertaking(states: seq<State>, steps: seq<Step>, idle: Tid, i: nat, j: nat, a: Tid, b: Tid)
    requires IsRun(states, steps, idle) && i <= j < |states| && a != b
    requires Queued(states, steps, i, j, a) && Queued(states, steps, i, j, b) && Ahead(states[i].runq, a, b)
    ensures Ahead(states[j].runq, a, b)
    ensures j < |steps| ==> states[j + 1].active != b
    decreases j
  {
    hide Inv, Ahead, Enabled, Next;
    if i < j {
      NoOvertaking(states, steps, idle, i, j - 1, a, b);
      RunInv(states, steps, idle, j - 1);
      assert Takes(states[j - 1], states[j - 1 + 1], idle, steps[j - 1]);
      assert a in states[j - 1].runq && b in states[j - 1].runq && a in states[j].runq && b in states[j].runq;
      StepOrder(states[j - 1], idle, steps[j - 1], a, b);
    }
    if j < |steps| {
      RunInv(states, steps, idle, j);
      assert Takes(states[j], states[j + 1], idle, steps[j]);
      NotNext(states[j], idle, steps[j], a, b);
    }
  }

  /**
   Threads of equal priority run in the order in which they became able to: a thread that joins the
   run queue is not run before any thread of its priority that was queued already, unless it joins
   because it was preempted; then none of these is run before it.
   */
  lemma FirstCome(states: seq<State>, steps: seq<Step>, idle: Tid, i: nat, j: nat, a: Tid, b: Tid)
    requires IsRun(states, steps, idle) && i < j < |states|
    requires Queued(states, steps, i, j, a) && b !in states[i].runq && Queued(states, steps, i + 1, j, b)
    requires Prio(states[i + 1].threads, a) == Prio(states[i + 1].threads, b)
    ensures var (first, second) := if Preempted(states[i], steps[i], b) then (b, a) else (a, b);
            Ahead(states[j].runq, first, second) && (j < |steps| ==> states[j + 1].active != second)
  {
    hide Inv, Ahead, Enabled, Next;
    RunInv(states, steps, idle, i);
    assert Takes(states[i], states[i + 1], idle, steps[i]);
    assert a in states[i].runq && a in states[i + 1].runq && b in states[i + 1].runq && !Reprioritised(steps[i], a);
    StepOrder(states[i], idle, steps[i], a, b);
    var (first, second) := if Preempted(states[i], steps[i], b) then (b, a) else (a, b);
    NoOvertaking(states, steps, idle, i + 1, j, first, second);
  }
}
