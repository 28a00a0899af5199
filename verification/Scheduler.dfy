/** The scheduler's code: its globals, and the loops over its queues. */
module Scheduling {
  import opened Queues
  import opened SchedSpec
  import opened SchedInv

  class Scheduler {
    var threads: map<Tid, Thread>
    var runq: seq<Tid>
    var sleepq: map<Evt, seq<Tid>>
    var active: Tid
    var resched: Resched
    var locks: nat

    ghost function St(): State
      reads this
    {
      State(threads, runq, sleepq, active, resched, locks)
    }

    method RunqEnqueue(t: Tid)
      modifies this`runq, this`resched
      ensures St() == SchedSpec.RunqEnqueue(old(St()), t)
    {
      var i := 0;
      while i < |runq|
        invariant i <= |runq|
        invariant Behind(threads, runq, Prio(threads, t)) == i + Behind(threads, runq[i..], Prio(threads, t))
      {
        if Prio(threads, t) < Prio(threads, runq[i]) {
          break;
        }
        assert runq[i..][1..] == runq[i + 1..];
        i := i + 1;
      }
      runq := runq[..i] + [t] + runq[i..];
      // it is only preemption when resched is not pending
      if Prio(threads, t) < Prio(threads, active) && resched == No {
        resched := Preempt;
      }
    }

    method RunqInsert(t: Tid)
      modifies this`runq
      ensures St() == SchedSpec.RunqInsert(old(St()), t)
    {
      var i := 0;
      while i < |runq|
        invariant i <= |runq|
        invariant Before(threads, runq, Prio(threads, t)) == i + Before(threads, runq[i..], Prio(threads, t))
      {
        if Prio(threads, t) <= Prio(threads, runq[i]) {
          break;
        }
        assert runq[i..][1..] == runq[i + 1..];
        i := i + 1;
      }
      runq := runq[..i] + [t] + runq[i..];
    }

    /** sch_wakeup: returns the number of threads woken. */
    method Wakeup(e: Evt, result: int) returns (n: nat)
      requires SleepPlaced(St())
      modifies this
      ensures St() == SchedSpec.Wakeup(old(St()), e, result)
      ensures n == |Sleepers(old(St()), e)|
    {
      n := 0;
      ghost var was := St();
      while e in sleepq && sleepq[e] != []
        invariant SleepPlaced(St())
        invariant SchedSpec.Wakeup(was, e, result) == SchedSpec.Wakeup(St(), e, result)
        invariant n + |Sleepers(St(), e)| == |Sleepers(was, e)|
        decreases |Sleepers(St(), e)|
      {
        ghost var s := St();
        var t := sleepq[e][0];
        assert t in Sleepers(s, e);
        AwakePlaced(s, t, result);
        WithoutFirst(sleepq[e]);
        // move a sleeping thread to the run queue
        sleepq := sleepq[e := sleepq[e][1..]];
        threads := threads[t := threads[t].(slpret := result, sleep := false)];
        assert St() == Awake(s, t, result);
        ghost var a := St();
        if t != active {
          RunqEnqueue(t);
        }
        WokenPlaced(a, St());
        n := n + 1;
      }
      assert Sleepers(St(), e) == [];
    }

    /** The loop of sch_wakeone: the highest priority thread of a sleep queue, and where the loop variable ends. */
    method Select(q: seq<Tid>) returns (top: Tid, th: Tid)
      requires q != []
      ensures top == Best(threads, q) && th == q[|q| - 1]
    {
      top, th := q[0], q[0];
      var i := 0;
      while i < |q|
        invariant 0 <= i <= |q|
        invariant i == 0 ==> top == q[0]
        invariant i > 0 ==> top == Best(threads, q[..i]) && th == q[i - 1]
      {
        th := q[i];
        if Prio(threads, th) < Prio(threads, top) {
          top := th;
        }
        assert q[..i + 1][..i] == q[..i];
        i := i + 1;
      }
      assert q[..i] == q;
    }

    /** sch_wakeone: returns the thread woken. */
    method WakeOne(e: Evt) returns (woken: seq<Tid>)
      requires SleepPlaced(St())
      modifies this
      ensures St() == SchedSpec.WakeOne(old(St()), e)
      ensures woken == if Sleepers(old(St()), e) == [] then [] else [Best(old(St()).threads, Sleepers(old(St()), e))]
    {
      hide SchedSpec.Best, Queues.Without, SchedSpec.Prio;
      if e !in sleepq || sleepq[e] == [] {
        return [];
      }
      ghost var s := St();
      var q := sleepq[e];
      var top, th := Select(q);
      assert top in Sleepers(s, e);
      sleepq := sleepq[e := Without(q, top)];
      threads := threads[top := threads[top].(slpret := 0, sleep := false)];
      assert St() == Awake(s, top, 0);
      if th != active {
        RunqEnqueue(top);
      }
      woken := [top];
    }

    method Unsleep(t: Tid, result: int)
      requires SleepPlaced(St()) && t in threads
      modifies this
      ensures St() == SchedSpec.Unsleep(old(St()), t, result)
    {
      if threads[t].sleep {
        var e := threads[t].on;
        assert t in Sleepers(St(), e);
        sleepq := sleepq[e := Without(sleepq[e], t)];
        threads := threads[t := threads[t].(slpret := result, sleep := false)];
        if t != active {
          RunqEnqueue(t);
        }
      }
    }

    /** sch_prepare_sleep: fails when an unblocked signal is pending. */
    method PrepareSleep(e: Evt, sigPending: bool) returns (r: int)
      requires active in threads && !threads[active].sleep
      modifies this
      ensures sigPending ==> r == -EINTR && St() == old(St())
      ensures !sigPending ==> r == 0 && St() == SchedSpec.PrepareSleep(old(St()), e)
    {
      if sigPending {
        return -EINTR;
      }
      threads := threads[active := threads[active].(sleep := true, on := e)];
      sleepq := sleepq[e := (if e in sleepq then sleepq[e] else []) + [active]];
      locks := locks + 1;
      return 0;
    }

    method SuspendResume(suspend: seq<Tid>, resume: seq<Tid>)
      requires |suspend| <= 1 && |resume| <= 1
      requires forall t :: t in suspend ==> t in threads && !threads[t].suspend
      requires forall t :: t in resume ==> t in threads && (threads[t].suspend || t in suspend)
      modifies this
      ensures var s := if suspend == [] then old(St()) else Suspend(old(St()), suspend[0]);
              St() == if resume == [] then s else Resume(s, resume[0])
    {
      if suspend != [] {
        var t := suspend[0];
        if t == active {
          resched := Switch;
        } else if Runnable(threads[t]) {
          runq := Without(runq, t);
        }
        threads := threads[t := threads[t].(suspend := true)];
      }
      if resume != [] {
        var t := resume[0];
        threads := threads[t := threads[t].(suspend := false)];
        if Runnable(threads[t]) && t != active {
          RunqEnqueue(t);
        }
      }
    }

    method SetPrio(t: Tid, prio: int)
      requires t in threads
      modifies this
      ensures St() == SchedSpec.SetPrio(old(St()), t, prio)
    {
      if t == active {
        // if we change the current thread's priority it may be preempted
        var top := RunqTop(State(threads, runq, sleepq, active, resched, locks));
        threads := threads[t := threads[t].(prio := prio)];
        if prio > top && resched == No {
          resched := Preempt;
        }
      } else if Runnable(threads[t]) {
        // update the thread priority and adjust the run queue position
        runq := Without(runq, t);
        threads := threads[t := threads[t].(prio := prio)];
        RunqEnqueue(t);
      } else {
        threads := threads[t := threads[t].(prio := prio)];
      }
    }

    /** sch_switch; the run queue is never empty when it picks the next thread. */
    method SchSwitch(ghost idle: Tid)
      requires Inv(St(), idle)
      modifies this
      ensures St() == SwitchTo(old(St()))
    {
      // ignore spurious calls
      if resched == No || locks > 0 {
        return;
      }
      ghost var s := St();
      var prev := active;
      PutBackNonEmpty(s, idle);

      // move the current thread to the run queue
      if Runnable(threads[prev]) {
        if resched == Preempt {
          RunqInsert(prev);
        } else {
          RunqEnqueue(prev);
        }
      }
      assert St() == PutBack(s);
      resched := No;

      // select the thread to run next
      var next := runq[0];
      runq := runq[1..];
      if next == prev {
        return;
      }
      active := next;

      // reap a zombie
      if threads[prev].zombie {
        WokenPlaced(s, St());
        var n := Wakeup(threads[prev].exitEvent, 0);
        threads := threads - {prev};
      }
    }
  }

  lemma WokenPlaced(a: State, b: State)
    requires SleepPlaced(a) && b.threads == a.threads && b.sleepq == a.sleepq
    ensures SleepPlaced(b) && forall e :: Sleepers(b, e) == Sleepers(a, e)
  {
    forall e ensures Sleepers(b, e) == Sleepers(a, e) {}
  }

  /** While the idle thread can run, the queue sch_switch takes from is not empty. */
  lemma PutBackNonEmpty(s: State, idle: Tid)
    requires Inv(s, idle)
    ensures PutBack(s).runq != [] && PutBack(s).threads == s.threads && PutBack(s).sleepq == s.sleepq
  {
    if s.active == idle {
      assert idle in PutBack(s).runq;
    } else {
      assert idle in s.runq;
      assert idle in PutBack(s).runq;
    }
  }
}
