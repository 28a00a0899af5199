/** What every scheduler operation keeps: where each thread is, and who runs. */
module SchedInv {
  import opened Queues
  import opened SchedSpec

  // ----- the invariant -----

  /** A thread is on the run queue exactly when it can run and is not running. */
  ghost predicate RunqPlaced(s: State) {
    && Distinct(s.runq)
    && (forall t :: t in s.runq <==> t in s.threads && Runnable(s.threads[t]) && t != s.active)
  }

  /** A thread is on one sleep queue exactly when it sleeps. */
  ghost predicate SleepPlaced(s: State) {
    && (forall e :: Distinct(Sleepers(s, e)))
    && (forall e, t :: t in Sleepers(s, e) <==> t in s.threads && s.threads[t].sleep && s.threads[t].on == e)
  }

  /** The run queue is sorted and, with no reschedule pending, none of its threads outranks the active one. */
  ghost predicate Ranked(s: State) {
    && Sorted(s.threads, s.runq)
    && (s.resched == No ==> forall t :: t in s.runq ==> Prio(s.threads, s.active) <= Prio(s.threads, t))
  }

  /**
   The idle thread can always run, a zombie does not sleep, and an active thread that cannot run is
   about to be switched away from, at the latest when a prepared sleep is continued.
   */
  ghost predicate Live(s: State, idle: Tid) {
    && s.active in s.threads
    && idle in s.threads && Runnable(s.threads[idle]) && !s.threads[idle].exit
    && (forall t :: t in s.threads && s.threads[t].zombie ==> !s.threads[t].sleep)
    && (s.threads[s.active].suspend || s.threads[s.active].zombie ==> s.resched != No)
    && (s.threads[s.active].sleep && s.locks == 0 ==> s.resched != No)
  }

  ghost predicate Inv(s: State, idle: Tid) {
    RunqPlaced(s) && SleepPlaced(s) && Ranked(s) && Live(s, idle)
  }

  // ----- queues -----

  lemma InsertDistinct(q: seq<Tid>, i: nat, t: Tid)
    requires Distinct(q) && t !in q && i <= |q|
    ensures Distinct(InsertAt(q, i, t))
  {
    var r := InsertAt(q, i, t);
    forall a, b | 0 <= a < b < |r| ensures r[a] != r[b] {
      assert a < i ==> r[a] == q[a];
      assert a > i ==> r[a] == q[a - 1];
      assert b < i ==> r[b] == q[b];
      assert b > i ==> r[b] == q[b - 1];
    }
  }

  lemma InsertSorted(threads: map<Tid, Thread>, q: seq<Tid>, i: nat, t: Tid)
    requires Sorted(threads, q) && i <= |q|
    requires forall j :: 0 <= j < i ==> Prio(threads, q[j]) <= Prio(threads, t)
    requires i < |q| ==> Prio(threads, t) <= Prio(threads, q[i])
    ensures Sorted(threads, InsertAt(q, i, t))
  {
    var r := InsertAt(q, i, t);
    forall a, b | 0 <= a < b < |r| ensures Prio(threads, r[a]) <= Prio(threads, r[b]) {
      assert a < i ==> r[a] == q[a];
      assert a > i ==> r[a] == q[a - 1];
      assert b < i ==> r[b] == q[b];
      assert b > i ==> r[b] == q[b - 1];
    }
  }

  lemma {:induction false} WithoutSorted(threads: map<Tid, Thread>, q: seq<Tid>, t: Tid)
    requires Sorted(threads, q)
    ensures Sorted(threads, Without(q, t))
  {
    if q != [] {
      var w := Without(q[1..], t);
      WithoutSorted(threads, q[1..], t);
      forall i | 0 <= i < |w| ensures Prio(threads, q[0]) <= Prio(threads, w[i]) {
        assert w[i] in q[1..];
      }
    }
  }

  /** Removing the inserted thread gives the queue back: no other two threads change places. */
  lemma {:induction false} InsertThenRemove(q: seq<Tid>, i: nat, t: Tid)
    requires i <= |q| && t !in q
    ensures Without(InsertAt(q, i, t), t) == q
    decreases i
  {
    var r := InsertAt(q, i, t);
    if i == 0 {
      assert r == [t] + q && r[1..] == q;
    } else {
      assert r == [q[0]] + InsertAt(q[1..], i - 1, t);
      InsertThenRemove(q[1..], i - 1, t);
    }
  }

  /** Priorities of the threads of q are the same in both tables. */
  ghost predicate SamePrios(a: map<Tid, Thread>, b: map<Tid, Thread>, q: seq<Tid>) {
    forall t :: t in q ==> Prio(a, t) == Prio(b, t)
  }

  lemma SortedSame(a: map<Tid, Thread>, b: map<Tid, Thread>, q: seq<Tid>)
    requires Sorted(a, q) && SamePrios(a, b, q)
    ensures Sorted(b, q)
  {
    assert forall i :: 0 <= i < |q| ==> q[i] in q;
  }

  // ----- the run queue operations -----

  /** All of the invariant but for one thread, able to run, that is on no queue. */
  ghost predicate InvBut(s: State, idle: Tid, x: Tid) {
    && x in s.threads && Runnable(s.threads[x]) && x != s.active && x !in s.runq
    && Distinct(s.runq)
    && (forall t :: t in s.runq <==> t in s.threads && Runnable(s.threads[t]) && t != s.active && t != x)
    && SleepPlaced(s) && Ranked(s) && Live(s, idle)
  }

  lemma EnqueueInv(s: State, idle: Tid, x: Tid)
    requires InvBut(s, idle, x)
    ensures Inv(RunqEnqueue(s, x), idle)
    ensures RunqEnqueue(s, x).resched == No ==> s.resched == No
  {
    var i := Behind(s.threads, s.runq, Prio(s.threads, x));
    InsertDistinct(s.runq, i, x);
    InsertSorted(s.threads, s.runq, i, x);
    var r := RunqEnqueue(s, x);
    forall e ensures Sleepers(r, e) == Sleepers(s, e) {}
  }

  lemma AwakePlaced(s: State, x: Tid, result: int)
    requires SleepPlaced(s) && x in s.threads && s.threads[x].sleep
    ensures SleepPlaced(Awake(s, x, result))
    ensures forall f :: Sleepers(Awake(s, x, result), f) == if f == s.threads[x].on then Without(Sleepers(s, f), x) else Sleepers(s, f)
  {
    var a := Awake(s, x, result);
    var e := s.threads[x].on;
    forall f ensures Sleepers(a, f) == if f == e then Without(Sleepers(s, e), x) else Sleepers(s, f) {}
    WithoutDistinct(Sleepers(s, e), x);
  }

  /** Taking a sleeper off its queue leaves it on none. */
  lemma AwakeInv(s: State, idle: Tid, x: Tid, result: int)
    requires Inv(s, idle) && x in s.threads && s.threads[x].sleep
    ensures var a := Awake(s, x, result);
            && SleepPlaced(a) && Ranked(a) && Live(a, idle)
            && (x == s.active ==> RunqPlaced(a))
            && (x != s.active && !s.threads[x].suspend ==> InvBut(a, idle, x))
            && (x != s.active && s.threads[x].suspend ==> RunqPlaced(a))
  {
    var a := Awake(s, x, result);
    AwakePlaced(s, x, result);
    SortedSame(s.threads, a.threads, s.runq);
  }

  /** Waking a sleeper keeps the invariant exactly when it is not suspended or it is the active thread. */
  lemma WakeInv(s: State, idle: Tid, x: Tid, result: int)
    requires Inv(s, idle) && x in s.threads && s.threads[x].sleep
    ensures Inv(Wake(s, x, result), idle) <==> x == s.active || !s.threads[x].suspend
  {
    var a := Awake(s, x, result);
    AwakeInv(s, idle, x, result);
    if x != s.active {
      if s.threads[x].suspend {
        assert x in RunqEnqueue(a, x).runq;
      } else {
        EnqueueInv(a, idle, x);
      }
    }
  }

  // ----- wake-ups -----

  /** No thread sleeping on the event, but for the active one, is suspended. */
  ghost predicate NoneSuspended(s: State, e: Evt) {
    forall t :: t in Sleepers(s, e) && t in s.threads ==> t == s.active || !s.threads[t].suspend
  }


  lemma {:induction false} WithoutFirst(q: seq<Tid>)
    requires Distinct(q) && q != []
    ensures Without(q, q[0]) == q[1..]
  {
    assert q[0] !in q[1..];
  }

  lemma {:induction false} WakeAllInv(s: State, idle: Tid, e: Evt, q: seq<Tid>, result: int)
    requires Inv(s, idle) && q == Sleepers(s, e)
    requires NoneSuspended(s, e)
    ensures Inv(WakeAll(s, q, result), idle)
    ensures Sleepers(WakeAll(s, q, result), e) == []
    decreases |q|
  {
    if q != [] {
      assert q[0] in Sleepers(s, e);
      WakeInv(s, idle, q[0], result);
      WithoutFirst(q);
      WakeAllInv(Wake(s, q[0], result), idle, e, q[1..], result);
    }
  }

  /** WakeAll puts every thread of q but the active one on the run queue, and changes no suspension. */
  lemma {:induction false} WakeAllQueued(s: State, q: seq<Tid>, result: int, x: Tid)
    requires x in s.threads && forall t :: t in q ==> t in s.threads
    ensures var r := WakeAll(s, q, result);
            && r.active == s.active
            && x in r.threads && r.threads[x].suspend == s.threads[x].suspend
            && (x in s.runq || (x in q && x != s.active) ==> x in r.runq)
    decreases |q|
  {
    if q != [] {
      WakeAllQueued(Wake(s, q[0], result), q[1..], result, x);
    }
  }

  /** sch_wakeup keeps the invariant exactly when no thread sleeping on the event, but for the active one, is suspended. */
  lemma WakeupInv(s: State, idle: Tid, e: Evt, result: int)
    requires Inv(s, idle)
    ensures Inv(Wakeup(s, e, result), idle) <==> NoneSuspended(s, e)
    ensures Inv(Wakeup(s, e, result), idle) ==> Sleepers(Wakeup(s, e, result), e) == []
  {
    var q := Sleepers(s, e);
    if NoneSuspended(s, e) {
      WakeAllInv(s, idle, e, q, result);
    } else {
      var x :| x in q && x in s.threads && x != s.active && s.threads[x].suspend;
      WakeAllQueued(s, q, result, x);
    }
  }

  /** What sch_wakeone needs of the best and of the last sleeper on its queue. */
  predicate WakeOneFits(s: State, e: Evt) {
    var q := Sleepers(s, e);
    q == [] ||
    var top, last := Best(s.threads, q), q[|q| - 1];
    top in s.threads &&
    if last == s.active then top == s.active || s.threads[top].suspend
    else top != s.active && !s.threads[top].suspend
  }

  /** sch_wakeone keeps the invariant exactly under that condition. */
  lemma WakeOneInv(s: State, idle: Tid, e: Evt)
    requires Inv(s, idle)
    ensures Inv(WakeOne(s, e), idle) <==> WakeOneFits(s, e)
  {
    var q := Sleepers(s, e);
    if q != [] {
      var top := Best(s.threads, q);
      assert top in s.threads && s.threads[top].sleep;
      WakeOneCases(s, idle, top);
    }
  }

  lemma WakeOneCases(s: State, idle: Tid, top: Tid)
    requires Inv(s, idle) && top in s.threads && s.threads[top].sleep
    ensures var a := Awake(s, top, 0);
            && (Inv(a, idle) <==> top == s.active || s.threads[top].suspend)
            && (Inv(RunqEnqueue(a, top), idle) <==> top != s.active && !s.threads[top].suspend)
  {
    hide SleepPlaced, Ranked, Live;
    var a := Awake(s, top, 0);
    AwakeInv(s, idle, top, 0);
    if top != s.active && !s.threads[top].suspend {
      EnqueueInv(a, idle, top);
    } else {
      assert top in RunqEnqueue(a, top).runq;
    }
  }

  /** A thread as it is started, resumed. */
  function Started(prio: int): Thread {
    Thread(false, false, false, false, 0, 0, prio, true, QUANTUM, 9)
  }

  function Idle(): Thread {
    Thread(false, false, false, false, 0, 0, PRI_MIN, false, 0, 0)
  }

  /** Two threads prepared to sleep on one event, the active one behind a sleeper that ranks higher. */
  function StrandingState(): State {
    State(map[0 := Idle(), 1 := Started(10).(sleep := true, on := 5), 2 := Started(PRI_DEFAULT).(sleep := true, on := 5)],
          [0], map[5 := [1, 2]], 2, No, 1)
  }

  /** There sch_wakeone strands the thread it wakes: able to run, yet on no queue. */
  lemma WakeOneStrands()
    ensures var n := WakeOne(StrandingState(), 5);
            Runnable(n.threads[1]) && 1 !in n.runq && n.active != 1 && forall e :: 1 !in Sleepers(n, e)
  {
    var s := StrandingState();
    var q := [1, 2];
    assert Sleepers(s, 5) == q;
    var b := Best(s.threads, q);
    assert b == 1;
    assert Without(q, 1) == [2];
    forall e ensures 1 !in Sleepers(WakeOne(s, 5), e) {}
  }

  /** A suspended sleeper. */
  function SuspendedState(): State {
    State(map[0 := Idle(), 1 := Started(10).(sleep := true, suspend := true, on := 5), 2 := Started(PRI_DEFAULT)],
          [0], map[5 := [1]], 2, No, 0)
  }

  /** Waking it puts a thread that may not run on the run queue. */
  lemma WakeupQueuesSuspended()
    ensures 1 in Wakeup(SuspendedState(), 5, 0).runq && !Runnable(Wakeup(SuspendedState(), 5, 0).threads[1])
  {
    var s := SuspendedState();
    assert Sleepers(s, 5) == [1];
    WakeAllQueued(s, [1], 0, 1);
  }
}
