/**
 The read/write lock as a state machine over every interleaving: sys/sync/rwlock.cpp with the sleep
 loop of sys/include/wait.h.

 The lock's state is tested and changed under a spinlock, which keeps other threads from running;
 interrupts may wake a sleeper at any point. Which runnable thread goes next is arbitrary.
 */
module Rwlock {
  import opened Queues

  type Tid = nat

  const EINTR: int := 4

  /** Where a thread is. `write`: it wants the write lock; `intr`: an interruptible call. */
  datatype PC =
    | Out
    | Test(write: bool, intr: bool)    // before testing the condition, spinlock to be taken
    | Prep(write: bool, intr: bool)    // sleep prepared, scheduler locked
    | Sleep(write: bool, intr: bool)   // asleep
    | Woken(write: bool, intr: bool, result: int)

  /** `readers` and `writer` record who holds the lock; the code keeps only `state`. */
  datatype State = State(
    state: int,
    sleepq: seq<Tid>,
    cpu: Option<Tid>,
    pc: map<Tid, PC>,
    readers: multiset<Tid>,
    writer: Option<Tid>)

  function Pc(s: State, t: Tid): PC {
    if t in s.pc then s.pc[t] else Out
  }

  function Go(s: State, t: Tid, p: PC): State {
    s.(pc := s.pc[t := p])
  }

  datatype Step =
    | CallLock(t: Tid, write: bool, intr: bool, pending: bool)
    | CallUnlock(t: Tid, write: bool)
    | Run(t: Tid, pending: bool)
    | Signal(t: Tid)

  /** The condition a lock call waits for. */
  predicate Available(state: int, write: bool) {
    if write then state == 0 else state >= 0
  }

  predicate Enabled(s: State, a: Step) {
    match a
    case CallLock(t, _, _, _) => s.cpu == None && Pc(s, t) == Out
    case CallUnlock(t, write) =>
      s.cpu == None && Pc(s, t) == Out && if write then s.writer == Some(t) else t in s.readers
    case Run(t, _) => (s.cpu == None || s.cpu == Some(t)) && Pc(s, t) != Out && !Pc(s, t).Sleep?
    case Signal(t) => t in s.sleepq && Pc(s, t) != Out && Pc(s, t).intr
  }

  function Acquire(s: State, t: Tid, write: bool): State {
    if write then Go(s, t, Out).(state := s.state - 1, writer := Some(t))
    else Go(s, t, Out).(state := s.state + 1, readers := s.readers + multiset{t})
  }

  /** One turn of wait_event_interruptible_lock up to the sleep, with the acquisition after it. */
  function DoTest(s: State, t: Tid, write: bool, intr: bool, pending: bool): State {
    if Available(s.state, write) then Acquire(s, t, write)
    else if intr && pending then Go(s, t, Out)
    else Go(s, t, Prep(write, intr)).(sleepq := s.sleepq + [t], cpu := Some(t))
  }

  function DoPrep(s: State, t: Tid, write: bool, intr: bool): State {
    Go(s, t, if t in s.sleepq then Sleep(write, intr) else Woken(write, intr, -EINTR)).(cpu := None)
  }

  /** A woken thread gives up on an error, and else tests the condition again. */
  function DoWoken(s: State, t: Tid, write: bool, intr: bool, result: int): State {
    Go(s, t, if result != 0 then Out else Test(write, intr))
  }

  /** sch_wakeup with result 0 of everyone on the queue. */
  function WakeAll(s: State): State {
    s.(sleepq := [],
       pc := map t | t in s.pc ::
         if t in s.sleepq && s.pc[t].Sleep? then Woken(s.pc[t].write, s.pc[t].intr, 0) else s.pc[t])
  }

  function DoUnlock(s: State, t: Tid, write: bool): State {
    var r := if write then s.(state := s.state + 1, writer := None)
             else s.(state := s.state - 1, readers := s.readers - multiset{t});
    if r.state == 0 then WakeAll(r) else r
  }

  function DoSignal(s: State, t: Tid): State {
    var r := s.(sleepq := Without(s.sleepq, t));
    if Pc(s, t).Sleep? then Go(r, t, Woken(Pc(s, t).write, Pc(s, t).intr, -EINTR)) else r
  }

  function Next(s: State, a: Step): State
    requires Enabled(s, a)
  {
    match a
    case CallLock(t, write, intr, pending) => if intr && pending then s else Go(s, t, Test(write, intr))
    case CallUnlock(t, write) => DoUnlock(s, t, write)
    case Run(t, pending) =>
      (match Pc(s, t)
       case Test(write, intr) => DoTest(s, t, write, intr, pending)
       case Prep(write, intr) => DoPrep(s, t, write, intr)
       case Woken(write, intr, result) => DoWoken(s, t, write, intr, result)
       case _ => s)
    case Signal(t) => DoSignal(s, t)
  }

  // ----- the invariant -----

  /** The state is the number of readers, or -1 with one writer and no readers. */
  ghost predicate StateOk(s: State) {
    || (s.writer == None && s.state == |s.readers|)
    || (s.writer.Some? && s.state == -1 && s.readers == multiset{})
  }

  /** Whoever sleeps is on the queue, for a lock that is not available to it. */
  ghost predicate SleepOk(s: State) {
    && Distinct(s.sleepq)
    && (forall t :: t in s.sleepq ==>
          (Pc(s, t).Prep? || Pc(s, t).Sleep?) && !Available(s.state, Pc(s, t).write))
    && (forall t :: Pc(s, t).Sleep? ==> t in s.sleepq)
    && (forall t :: Pc(s, t).Prep? && t !in s.sleepq ==> Pc(s, t).intr)
    && (forall t :: Pc(s, t).Woken? && Pc(s, t).result != 0 ==> Pc(s, t).intr && Pc(s, t).result == -EINTR)
  }

  ghost predicate CpuOk(s: State) {
    forall t: Tid :: Pc(s, t).Prep? <==> s.cpu == Some(t)
  }

  ghost predicate Inv(s: State) {
    StateOk(s) && SleepOk(s) && CpuOk(s)
  }

  lemma CallLockInv(s: State, t: Tid, write: bool, intr: bool)
    requires Inv(s) && s.cpu == None && Pc(s, t) == Out
    ensures Inv(Go(s, t, Test(write, intr)))
  {
  }

  lemma AcquireInv(s: State, t: Tid, write: bool)
    requires Inv(s) && s.cpu == None && Pc(s, t).Test? && Available(s.state, write)
    ensures Inv(Acquire(s, t, write))
  {
    var n := Acquire(s, t, write);
    assert t !in s.sleepq;
    if write { NoSleepers(s); }
    assert |s.readers + multiset{t}| == |s.readers| + 1;
    assert StateOk(n);
    forall u ensures Pc(n, u) == if u == t then Out else Pc(s, u) {}
  }

  lemma SleepInv(s: State, t: Tid, write: bool, intr: bool)
    requires Inv(s) && s.cpu == None && Pc(s, t).Test? && !Available(s.state, write)
    ensures Inv(Go(s, t, Prep(write, intr)).(sleepq := s.sleepq + [t], cpu := Some(t)))
  {
    var n := Go(s, t, Prep(write, intr)).(sleepq := s.sleepq + [t], cpu := Some(t));
    assert t !in s.sleepq;
    forall u ensures Pc(n, u) == if u == t then Prep(write, intr) else Pc(s, u) {}
  }

  lemma TestInv(s: State, t: Tid, write: bool, intr: bool, pending: bool)
    requires Inv(s) && s.cpu == None && Pc(s, t) == Test(write, intr)
    ensures Inv(DoTest(s, t, write, intr, pending))
  {
    if Available(s.state, write) {
      AcquireInv(s, t, write);
    } else if intr && pending {
      assert t !in s.sleepq;
    } else {
      SleepInv(s, t, write, intr);
    }
  }

  /** A free lock has nobody asleep on it. */
  lemma NoSleepers(s: State)
    requires Inv(s) && s.state == 0
    ensures forall t :: t !in s.sleepq
  {
  }

  lemma PrepInv(s: State, t: Tid, write: bool, intr: bool)
    requires Inv(s) && s.cpu == Some(t) && Pc(s, t) == Prep(write, intr)
    ensures Inv(DoPrep(s, t, write, intr))
  {
    var n := DoPrep(s, t, write, intr);
    forall u: Tid ensures Pc(n, u).Prep? <==> n.cpu == Some(u) {
      assert Pc(s, u).Prep? <==> s.cpu == Some(u);
    }
  }

  lemma WokenInv(s: State, t: Tid, write: bool, intr: bool, result: int)
    requires Inv(s) && s.cpu == None && Pc(s, t) == Woken(write, intr, result)
    ensures Inv(DoWoken(s, t, write, intr, result))
  {
    assert t !in s.sleepq;
  }

  lemma UnlockInv(s: State, t: Tid, write: bool)
    requires Inv(s) && s.cpu == None && Pc(s, t) == Out
    requires if write then s.writer == Some(t) else t in s.readers
    ensures Inv(DoUnlock(s, t, write))
    ensures DoUnlock(s, t, write).state == 0 ==> DoUnlock(s, t, write).sleepq == []
  {
    var r := if write then s.(state := s.state + 1, writer := None)
             else s.(state := s.state - 1, readers := s.readers - multiset{t});
    assert |r.readers| == if write then |s.readers| else |s.readers| - 1;
    if r.state == 0 {
      WakeAllInv(s, r);
    } else {
      forall u | u in r.sleepq ensures !Available(r.state, Pc(r, u).write) { assert Pc(r, u) == Pc(s, u); }
    }
  }

  lemma WakeAllInv(s: State, r: State)
    requires SleepOk(s) && CpuOk(s) && StateOk(r) && s.cpu == None && r.sleepq == s.sleepq && r.pc == s.pc && r.cpu == s.cpu
    ensures Inv(WakeAll(r))
  {
    var n := WakeAll(r);
    forall u: Tid ensures Pc(n, u) == if u in s.sleepq then Woken(Pc(s, u).write, Pc(s, u).intr, 0) else Pc(s, u) {
      assert Pc(s, u).Prep? <==> s.cpu == Some(u);
    }
  }

  lemma SignalInv(s: State, t: Tid)
    requires Inv(s) && t in s.sleepq && Pc(s, t) != Out && Pc(s, t).intr
    ensures Inv(DoSignal(s, t))
  {
    var n := DoSignal(s, t);
    WithoutDistinct(s.sleepq, t);
    forall u: Tid ensures Pc(n, u).Prep? <==> n.cpu == Some(u) {
      assert Pc(s, u).Prep? <==> s.cpu == Some(u);
    }
  }

  lemma StepInv(s: State, a: Step)
    requires Inv(s) && Enabled(s, a)
    ensures Inv(Next(s, a))
  {
    match a
    case CallLock(t, write, intr, pending) => CallLockInv(s, t, write, intr);
    case CallUnlock(t, write) => UnlockInv(s, t, write);
    case Run(t, pending) =>
      assert Pc(s, t).Prep? <==> s.cpu == Some(t);
      match Pc(s, t) {
        case Test(write, intr) => TestInv(s, t, write, intr, pending);
        case Prep(write, intr) => PrepInv(s, t, write, intr);
        case Woken(write, intr, result) => WokenInv(s, t, write, intr, result);
        case _ =>
      }
    case Signal(t) => SignalInv(s, t);
  }

  // ----- every run -----

  /** rwlock_init */
  function Init(): State {
    State(0, [], None, map[], multiset{}, None)
  }

  ghost predicate Takes(s: State, n: State, a: Step) {
    Enabled(s, a) && n == Next(s, a)
  }

  ghost predicate IsRun(states: seq<State>, steps: seq<Step>) {
    && |states| == |steps| + 1
    && states[0] == Init()
    && forall i :: 0 <= i < |steps| ==> Takes(states[i], states[i + 1], steps[i])
  }

  lemma {:induction false} RunInv(states: seq<State>, steps: seq<Step>, n: nat)
    requires IsRun(states, steps) && n < |states|
    ensures Inv(states[n])
    decreases n
  {
    if n > 0 {
      RunInv(states, steps, n - 1);
      assert Takes(states[n - 1], states[n - 1 + 1], steps[n - 1]);
      StepInv(states[n - 1], steps[n - 1]);
    }
  }

  /** A writer excludes every other holder, and the code's counter tells who holds the lock. */
  lemma Exclusion(states: seq<State>, steps: seq<Step>, n: nat)
    requires IsRun(states, steps) && n < |states|
    ensures states[n].writer.Some? ==> states[n].readers == multiset{}
    ensures states[n].state < 0 <==> states[n].writer.Some?
    ensures states[n].state > 0 <==> states[n].readers != multiset{}
    ensures states[n].state == -1 || states[n].state == |states[n].readers|
  {
    RunInv(states, steps, n);
  }

  /** A sleeping reader has a writer to wait for, and a sleeping writer some holder: nobody is left behind by a release. */
  lemma NobodyStranded(states: seq<State>, steps: seq<Step>, n: nat, t: Tid)
    requires IsRun(states, steps) && n < |states| && Pc(states[n], t).Sleep?
    ensures t in states[n].sleepq
    ensures !Pc(states[n], t).write ==> states[n].writer.Some?
    ensures Pc(states[n], t).write ==> states[n].writer.Some? || states[n].readers != multiset{}
  {
    RunInv(states, steps, n);
  }

  /** The result with which a step ends a lock call of thread t, if it does. */
  function LockEnds(s: State, a: Step, t: Tid): Option<int> {
    match a
    case CallLock(u, _, intr, pending) => if u == t && intr && pending then Some(-EINTR) else None
    case Run(u, pending) => if u == t then RunEnds(s, t, pending) else None
    case _ => None
  }

  function RunEnds(s: State, t: Tid, pending: bool): Option<int> {
    match Pc(s, t)
    case Test(write, intr) =>
      if Available(s.state, write) then Some(0) else if intr && pending then Some(-EINTR) else None
    case Woken(_, _, result) => if result != 0 then Some(result) else None
    case _ => None
  }

  /** A lock call ends with 0 exactly when the caller has become writer or one more reader; else nothing changed hands. */
  lemma LockResult(states: seq<State>, steps: seq<Step>, i: nat, t: Tid)
    requires IsRun(states, steps) && i < |steps| && LockEnds(states[i], steps[i], t).Some?
    ensures var r := LockEnds(states[i], steps[i], t).value;
            var s, n := states[i], states[i + 1];
            && Pc(n, t) == Out
            && (r == 0 || r == -EINTR)
            && (r == 0 ==> if Pc(s, t).write then n.writer == Some(t) && s.writer == None && s.readers == multiset{}
                           else n.readers == s.readers + multiset{t} && n.writer == None)
            && (r != 0 ==> n.readers == s.readers && n.writer == s.writer && n.state == s.state)
  {
    RunInv(states, steps, i);
    assert Takes(states[i], states[i + 1], steps[i]);
  }

  /** A call that is not interruptible ends only with the lock. */
  lemma Uninterrupted(states: seq<State>, steps: seq<Step>, i: nat, t: Tid)
    requires IsRun(states, steps) && i < |steps| && LockEnds(states[i], steps[i], t).Some?
    requires steps[i].Run? && !Pc(states[i], t).intr
    ensures LockEnds(states[i], steps[i], t) == Some(0)
  {
    RunInv(states, steps, i);
    assert Takes(states[i], states[i + 1], steps[i]);
  }

  // ----- whole calls -----

  /**
   A read unlock takes one hold of its thread, a write unlock the writer. When that frees the lock, every sleeper is
   woken with 0 and nobody is left on the queue; otherwise all stay where they are.
   */
  lemma UnlockResult(states: seq<State>, steps: seq<Step>, i: nat, t: Tid, write: bool)
    requires IsRun(states, steps) && i < |steps| && steps[i] == CallUnlock(t, write)
    ensures var s, n := states[i], states[i + 1];
            && (if write then s.writer == Some(t) && n.writer == None && n.readers == s.readers
                else t in s.readers && n.readers == s.readers - multiset{t} && n.writer == s.writer)
            && (if n.writer == None && n.readers == multiset{} then
                  n.sleepq == [] && forall x :: Pc(n, x) == if Pc(s, x).Sleep? then Woken(Pc(s, x).write, Pc(s, x).intr, 0) else Pc(s, x)
                else n.sleepq == s.sleepq && n.pc == s.pc)
  {
    RunInv(states, steps, i);
    RunInv(states, steps, i + 1);
    assert Takes(states[i], states[i + 1], steps[i]);
  }

  /** Thread t makes no other call after step i and before state n, and stays in the one it made. */
  ghost predicate InCall(states: seq<State>, steps: seq<Step>, i: nat, n: nat, t: Tid) {
    i < n <= |steps| < |states| && forall j :: i < j < n ==> Pc(states[j], t) != Out
  }

  predicate Wants(p: PC, write: bool, intr: bool) {
    p != Out && p.write == write && p.intr == intr
  }

  /** Nothing changes hands for thread t. */
  ghost predicate SameHolds(s: State, n: State, t: Tid) {
    n.readers[t] == s.readers[t] && (n.writer == Some(t) <==> s.writer == Some(t))
  }

  lemma OthersStep(s: State, a: Step, t: Tid, write: bool, intr: bool)
    requires Inv(s) && Enabled(s, a) && Wants(Pc(s, t), write, intr) && !(a.Run? && a.t == t)
    ensures Wants(Pc(Next(s, a), t), write, intr) && SameHolds(s, Next(s, a), t)
  {
    hide DoUnlock, SleepOk, CpuOk;
    if a.CallUnlock? {
      OthersUnlock(s, a.t, a.write, t, write, intr);
    }
  }

  lemma OthersUnlock(s: State, u: Tid, w: bool, t: Tid, write: bool, intr: bool)
    requires Enabled(s, CallUnlock(u, w)) && Wants(Pc(s, t), write, intr)
    ensures Wants(Pc(DoUnlock(s, u, w), t), write, intr) && SameHolds(s, DoUnlock(s, u, w), t)
  {
  }

  lemma OwnStep(s: State, pending: bool, t: Tid, write: bool, intr: bool)
    requires Inv(s) && Enabled(s, Run(t, pending)) && Wants(Pc(s, t), write, intr)
    ensures var n := Next(s, Run(t, pending));
            RunEnds(s, t, pending) == None ==>
              && Wants(Pc(n, t), write, intr) && n.readers == s.readers && n.writer == s.writer
              && (Pc(s, t).Test? ==> Pc(n, t).Prep? && t in n.sleepq)
              && (Pc(s, t).Prep? ==> n.cpu == None && if t in s.sleepq then Pc(n, t).Sleep? else Pc(n, t) == Woken(write, true, -4))
              && (Pc(s, t).Woken? ==> Pc(n, t).Test?)
  {
  }

  lemma {:induction false} LockGoesOn(states: seq<State>, steps: seq<Step>, i: nat, n: nat, t: Tid, write: bool, intr: bool, pending: bool)
    requires IsRun(states, steps) && InCall(states, steps, i, n, t)
    requires steps[i] == CallLock(t, write, intr, pending) && !(intr && pending)
    ensures Pc(states[i + 1], t) == Test(write, intr)
    ensures Pc(states[n], t) != Out ==> Wants(Pc(states[n], t), write, intr) && SameHolds(states[i], states[n], t)
    ensures Pc(states[n], t) == Out ==>
              && n > i + 1 && Wants(Pc(states[n - 1], t), write, intr) && SameHolds(states[i], states[n - 1], t)
              && steps[n - 1].Run? && LockEnds(states[n - 1], steps[n - 1], t).Some?
    decreases n
  {
    hide Inv, Next, Enabled;
    assert Takes(states[i], states[i + 1], steps[i]);
    LockStart(states[i], t, write, intr, pending);
    if n > i + 1 {
      LockGoesOn(states, steps, i, n - 1, t, write, intr, pending);
      RunInv(states, steps, n - 1);
      assert Takes(states[n - 1], states[n - 1 + 1], steps[n - 1]);
      var a := steps[n - 1];
      if a.Run? && a.t == t {
        OwnStep(states[n - 1], a.pending, t, write, intr);
        if RunEnds(states[n - 1], t, a.pending).Some? { LockResult(states, steps, n - 1, t); }
      } else {
        OthersStep(states[n - 1], a, t, write, intr);
      }
    }
  }

  lemma LockStart(s: State, t: Tid, write: bool, intr: bool, pending: bool)
    requires Enabled(s, CallLock(t, write, intr, pending))
    ensures var n := Next(s, CallLock(t, write, intr, pending));
            if intr && pending then n == s else Pc(n, t) == Test(write, intr) && n == s.(pc := n.pc)
  {
  }

  /**
   A lock call fails at once if it can be interrupted and a signal is pending. Any other enters the call, and when it ends
   its thread has what it asked for and held before, or, only if it can be interrupted, what it held before.
   */
  lemma LockCall(states: seq<State>, steps: seq<Step>, i: nat, n: nat, t: Tid, write: bool, intr: bool, pending: bool)
    requires IsRun(states, steps) && InCall(states, steps, i, n, t) && steps[i] == CallLock(t, write, intr, pending)
    ensures intr && pending ==> states[i + 1] == states[i]
    ensures !(intr && pending) ==> Pc(states[i + 1], t) != Out
    ensures !(intr && pending) && Pc(states[n], t) == Out ==>
              LockEnds(states[n - 1], steps[n - 1], t).Some? &&
              var r := LockEnds(states[n - 1], steps[n - 1], t).value;
              && (r == 0 || (intr && r == -4))
              && states[n].readers[t] == states[i].readers[t] + (if r == 0 && !write then 1 else 0)
              && (states[n].writer == Some(t) <==> (r == 0 && write) || (r != 0 && states[i].writer == Some(t)))
  {
    hide Inv, Next, Enabled, LockEnds;
    assert Takes(states[i], states[i + 1], steps[i]);
    LockStart(states[i], t, write, intr, pending);
    if !(intr && pending) {
      LockGoesOn(states, steps, i, n, t, write, intr, pending);
      if Pc(states[n], t) == Out {
        LockResult(states, steps, n - 1, t);
        LockOnly(states, steps, n - 1, t);
        if !intr { Uninterrupted(states, steps, n - 1, t); }
      }
    }
  }

  /** Becoming a writer makes nobody a reader; becoming a reader happens without a writer. */
  lemma LockOnly(states: seq<State>, steps: seq<Step>, i: nat, t: Tid)
    requires IsRun(states, steps) && i < |steps| && LockEnds(states[i], steps[i], t).Some?
    ensures LockEnds(states[i], steps[i], t) == Some(0) && Pc(states[i], t) != Out && Pc(states[i], t).write ==>
              states[i + 1].readers == states[i].readers
  {
    assert Takes(states[i], states[i + 1], steps[i]);
  }

  /** A signal wakes an interruptible sleeper with -EINTR, and nothing changes hands. */
  lemma SignalResult(states: seq<State>, steps: seq<Step>, i: nat, t: Tid)
    requires IsRun(states, steps) && i < |steps| && steps[i] == Signal(t)
    ensures var s, n := states[i], states[i + 1];
            && t in s.sleepq && t !in n.sleepq && (forall x :: x != t ==> (x in n.sleepq <==> x in s.sleepq))
            && n == s.(sleepq := n.sleepq, pc := n.pc) && (forall x :: x != t ==> Pc(n, x) == Pc(s, x))
            && Pc(s, t) != Out && Pc(n, t) == if Pc(s, t).Sleep? then Woken(Pc(s, t).write, true, -4) else Pc(s, t)
  {
    RunInv(states, steps, i);
    assert Takes(states[i], states[i + 1], steps[i]);
  }

  /**
   No run gets stuck. A thread with the scheduler locked can take its next step; with none, every thread can call, or go on
   with its call, or sleeps. Then some thread holds the lock against it, and can release it unless it is in a call itself.
   A sleeper that can be interrupted can be signalled at any time.
   */
  lemma NoDeadlock(states: seq<State>, steps: seq<Step>, n: nat, t: Tid)
    requires IsRun(states, steps) && n < |states|
    ensures var s := states[n];
            && (s.cpu.Some? ==> forall pending :: Enabled(s, Run(s.cpu.value, pending)))
            && (Pc(s, t).Sleep? && Pc(s, t).intr ==> Enabled(s, Signal(t)))
            && (s.cpu == None && Pc(s, t) == Out ==> forall write, intr, pending :: Enabled(s, CallLock(t, write, intr, pending)))
            && (s.cpu == None && Pc(s, t) != Out && !Pc(s, t).Sleep? ==> forall pending :: Enabled(s, Run(t, pending)))
            && (s.cpu == None && Pc(s, t).Sleep? ==>
                  exists u, write :: Holds(s, u, write) && (Pc(s, u) == Out ==> Enabled(s, CallUnlock(u, write))))
  {
    RunInv(states, steps, n);
    var s := states[n];
    if s.cpu.Some? {
      assert Pc(s, s.cpu.value).Prep?;
    } else if Pc(s, t).Sleep? {
      NobodyStranded(states, steps, n, t);
      if s.writer.Some? {
        assert Holds(s, s.writer.value, true);
      } else {
        var u :| u in s.readers;
        assert Holds(s, u, false);
      }
    }
  }

  predicate Holds(s: State, u: Tid, write: bool) {
    if write then s.writer == Some(u) else u in s.readers
  }
}
