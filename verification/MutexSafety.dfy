/** What the mutex promises, in every state of every run. */
module MutexSafety {
  import opened Queues
  import opened Mutex
  import opened MutexInv

  lemma RunStepInv(s: State, t: Tid, pending: bool, choice: Tid)
    requires Inv(s) && Enabled(s, Run(t, pending, choice))
    ensures Inv(RunStep(s, t, pending, choice))
  {
    hide Inv;
    match Pc(s, t)
    case LockTry(intr, cond) => LockTryInv(s, t, intr, cond);
    case LockGot(cond) => LockGotInv(s, t, cond);
    case LockSlow(intr, cond) => LockSlowInv(s, t, intr, cond);
    case LockHeld(intr, cond) => LockHeldInv(s, t, intr, cond, pending);
    case LockPrep(intr, cond) => LockPrepInv(s, t, intr, cond);
    case LockWoken(result, cond) => LockWokenInv(s, t, result, cond);
    case UnlockTry(cond) => UnlockTryInv(s, t, cond);
    case UnlockSlow(cond) => UnlockSlowInv(s, t, cond);
    case UnlockHeld(cond) => UnlockHeldInv(s, t, cond);
    case UnlockWake(cond) => UnlockWakeInv(s, t, cond, choice);
    case UnlockLook(next, cond) => UnlockLookInv(s, t, next, cond);
    case UnlockStore(next, waiting, cond) => UnlockStoreInv(s, t, next, waiting, cond);
    case CondPrep => CondPrepInv(s, t);
    case _ =>
  }

  lemma StepInv(s: State, a: Step)
    requires Inv(s) && Enabled(s, a)
    ensures Inv(Next(s, a))
  {
    hide Inv;
    match a
    case CallLock(t, intr, pending) => CallLockInv(s, t, intr, pending);
    case CallUnlock(t) => CallUnlockInv(s, t);
    case CallCondWait(t, pending) => CallCondWaitInv(s, t, pending);
    case Run(t, pending, choice) => RunStepInv(s, t, pending, choice);
    case Signal(t) =>
      if t in s.sleepq && Interruptible(Pc(s, t)) { InterruptedInv(s, t); } else { CondWokenInv(s, t); }
    case CondSignal(t) => CondWokenInv(s, t);
  }

  /** mutex_init and cond_init. */
  function Init(): State {
    State(None, false, false, 0, [], [], None, map[], map[])
  }

  ghost predicate IsRun(states: seq<State>, steps: seq<Step>) {
    && |states| == |steps| + 1
    && states[0] == Init()
    && forall i :: 0 <= i < |steps| ==> Takes(states[i], states[i + 1], steps[i])
  }

  ghost predicate Takes(s: State, n: State, a: Step) {
    Enabled(s, a) && n == Next(s, a)
  }

  lemma {:induction false} RunInv(states: seq<State>, steps: seq<Step>, n: nat)
    requires IsRun(states, steps) && n < |states|
    ensures Inv(states[n])
    decreases n
  {
    if n > 0 {
      RunInv(states, steps, n - 1);
      assert Takes(states[n - 1], states[n - 1 + 1], steps[n - 1]);
      StepInv(states[n - 1], steps[n - 1]);
    }
  }

  /** At most one thread has locks to release, and while one has, it is the owner. */
  lemma Exclusion(states: seq<State>, steps: seq<Step>, n: nat, t: Tid, u: Tid)
    requires IsRun(states, steps) && n < |states|
    requires Held(states[n], t) > 0 && Held(states[n], u) > 0
    ensures t == u && states[n].owner == Some(t)
  {
    RunInv(states, steps, n);
    assert ThreadOk(states[n], t) && ThreadOk(states[n], u);
  }

  /**
   No wake-up is lost: whoever sleeps in a lock call, the waiters bit is set and some thread owns
   the mutex, so that the owner's unlock cannot take the fast path past the sleepers.
   */
  lemma NoLostWakeup(states: seq<State>, steps: seq<Step>, n: nat, t: Tid)
    requires IsRun(states, steps) && n < |states|
    requires Pc(states[n], t).LockSleep?
    ensures states[n].waiters && states[n].owner.Some? && states[n].owner != Some(t)
    ensures t in states[n].sleepq
  {
    RunInv(states, steps, n);
    assert ThreadOk(states[n], t);
  }

  /** The result with which a step ends a mutex_lock call of thread t, if it does. */
  function LockEnds(s: State, a: Step, t: Tid): Option<int> {
    match a
    case CallLock(u, intr, pending) => if u == t && intr && pending then Some(-EINTR) else None
    case Run(u, pending, _) => if u == t then LockRunEnds(s, t, pending) else None
    case _ => None
  }

  function LockRunEnds(s: State, t: Tid, pending: bool): Option<int> {
    match Pc(s, t)
    case LockGot(_) => Some(0)
    case LockHeld(intr, _) =>
      if s.owner == Some(t) || WordFree(s) then Some(0) else if intr && pending then Some(-EINTR) else None
    case LockWoken(result, _) => Some(result)
    case _ => None
  }

  /**
   A lock call ends with 0 exactly when it adds to the caller's locks, the caller then being the
   owner; when it ends otherwise, it has left owner and locks alone. A caller that held no lock
   before owns the mutex afterwards if and only if the result is 0.
   */
  lemma LockResult(states: seq<State>, steps: seq<Step>, i: nat, t: Tid)
    requires IsRun(states, steps) && i < |steps|
    requires LockEnds(states[i], steps[i], t).Some?
    ensures var r := LockEnds(states[i], steps[i], t).value;
            var s, n := states[i], states[i + 1];
            && Pc(n, t) == Out
            && (r == 0 || r == -EINTR)
            && (r == 0 <==> Held(n, t) == Held(s, t) + 1)
            && (r != 0 ==> Held(n, t) == Held(s, t) && n.owner == s.owner)
            && (n.owner == Some(t) <==> Held(n, t) > 0)
            && (Held(s, t) == 0 ==> (r == 0 <==> n.owner == Some(t)))
  {
    RunInv(states, steps, i);
    RunInv(states, steps, i + 1);
    assert Takes(states[i], states[i + 1], steps[i]);
    assert ThreadOk(states[i], t) && ThreadOk(states[i + 1], t);
  }

  /** A condition wait that ends has locked the mutex again, whatever woke it. */
  lemma CondWaitRelocks(states: seq<State>, steps: seq<Step>, i: nat, t: Tid)
    requires IsRun(states, steps) && i < |steps|
    requires LockEnds(states[i], steps[i], t).Some?
    requires steps[i].Run? && InCondWait(Pc(states[i], t))
    ensures LockEnds(states[i], steps[i], t) == Some(0)
    ensures states[i + 1].owner == Some(t)
  {
    RunInv(states, steps, i);
    assert ThreadOk(states[i], t);
    LockResult(states, steps, i, t);
  }

  predicate InCondWait(p: PC) {
    match p
    case LockGot(cond) => cond
    case LockHeld(_, cond) => cond
    case LockWoken(_, cond) => cond
    case _ => false
  }

  /** Thread t makes a call. */
  predicate Calls(a: Step, t: Tid) {
    match a
    case CallLock(u, _, _) => u == t
    case CallUnlock(u) => u == t
    case CallCondWait(u, _) => u == t
    case _ => false
  }

  /** Where a thread may be from the start of a condition wait on, until its next call. */
  predicate OfWait(p: PC) {
    match p
    case Out => true
    case LockTry(_, cond) => cond
    case LockGot(cond) => cond
    case LockSlow(_, cond) => cond
    case LockHeld(_, cond) => cond
    case LockPrep(_, cond) => cond
    case LockSleep(_, cond) => cond
    case LockWoken(_, cond) => cond
    case _ => MaySleepOnCond(p)
  }

  /** The wait has given its lock back and does not have it again. */
  predicate Waits(p: PC) {
    !(p == Out || p.UnlockTry? || p.UnlockSlow? || p.UnlockHeld?)
  }

  /** In a wait begun with h locks. */
  ghost predicate InWait(s: State, t: Tid, h: nat) {
    OfWait(Pc(s, t)) && Held(s, t) == if Waits(Pc(s, t)) then h - 1 else h
  }

  lemma AsleepOnMutex(s: State, t: Tid)
    requires Inv(s)
    ensures ThreadOk(s, t) && (t in s.sleepq ==> Sleeping(Pc(s, t)))
  {
  }

  /** Until the wait has released the mutex, its thread owns it. */
  lemma ReleaseRun(s: State, t: Tid, pending: bool, choice: Tid, h: nat)
    requires s.owner == Some(t) && InWait(s, t, h) && h > 0 && Pc(s, t) != Out && !Waits(Pc(s, t))
    requires h > 1 ==> s.recursive
    ensures InWait(RunStep(s, t, pending, choice), t, h)
  {
    match Pc(s, t)
    case UnlockTry(_) =>
    case UnlockSlow(_) =>
    case UnlockHeld(_) =>
  }

  predicate Locking(p: PC) {
    p.LockTry? || p.LockGot? || p.LockSlow? || p.LockHeld? || p.LockPrep? || p.LockSleep? || p.LockWoken?
  }

  lemma RelockRun(s: State, t: Tid, pending: bool, choice: Tid, h: nat)
    requires CallOk(Pc(s, t)) && InWait(s, t, h) && h > 0 && Locking(Pc(s, t))
    ensures InWait(RunStep(s, t, pending, choice), t, h)
  {
  }

  lemma HandOverRun(s: State, t: Tid, pending: bool, choice: Tid, h: nat)
    requires InWait(s, t, h) && h > 0 && Waits(Pc(s, t)) && !Locking(Pc(s, t))
    requires Pc(s, t).UnlockWake? && s.sleepq != [] ==> choice != t
    ensures InWait(RunStep(s, t, pending, choice), t, h)
  {
  }

  lemma InWaitRun(s: State, t: Tid, pending: bool, choice: Tid, h: nat)
    requires ThreadOk(s, t) && Enabled(s, Run(t, pending, choice)) && InWait(s, t, h) && h > 0
    requires choice in s.sleepq ==> Sleeping(Pc(s, choice))
    ensures InWait(RunStep(s, t, pending, choice), t, h)
  {
    hide RunStep;
    if Locking(Pc(s, t)) {
      RelockRun(s, t, pending, choice, h);
    } else if Waits(Pc(s, t)) {
      HandOverRun(s, t, pending, choice, h);
    } else {
      ReleaseRun(s, t, pending, choice, h);
    }
  }

  /** A signal or a wake-up, for t or another thread. */
  lemma InWaitWoken(s: State, a: Step, t: Tid, h: nat)
    requires Enabled(s, a) && InWait(s, t, h) && (a.Signal? || a.CondSignal?)
    ensures InWait(Next(s, a), t, h)
  {
    hide RunStep;
  }

  lemma InWaitCall(s: State, a: Step, t: Tid, h: nat)
    requires Enabled(s, a) && InWait(s, t, h) && (a.CallLock? || a.CallUnlock? || a.CallCondWait?) && a.t != t
    ensures InWait(Next(s, a), t, h)
  {
    hide RunStep;
  }

  lemma InWaitOther(s: State, a: Step, t: Tid, h: nat)
    requires Enabled(s, a) && InWait(s, t, h) && !Calls(a, t) && !(a.Run? && a.t == t)
    requires t in s.sleepq ==> Sleeping(Pc(s, t))
    ensures InWait(Next(s, a), t, h)
  {
    hide RunStep, Enabled;
    match a
    case Run(u, pending, choice) => OthersRun(s, u, pending, choice, t);
    case Signal(_) => InWaitWoken(s, a, t, h);
    case CondSignal(_) => InWaitWoken(s, a, t, h);
    case _ => InWaitCall(s, a, t, h);
  }

  /** Another thread wakes t from its sleep in a lock call, or leaves it alone. */
  ghost predicate OthersLeave(s: State, n: State, t: Tid) {
    && Held(n, t) == Held(s, t)
    && (Pc(n, t) == Pc(s, t) || (t in s.sleepq && Pc(n, t) == LockWoken(0, PcCond(s, t))))
  }

  lemma OthersLock(s: State, u: Tid, pending: bool, choice: Tid, t: Tid)
    requires u != t && Locking(Pc(s, u))
    ensures OthersLeave(s, RunStep(s, u, pending, choice), t)
  {
  }

  lemma OthersRelease(s: State, u: Tid, pending: bool, choice: Tid, t: Tid)
    requires u != t && Pc(s, u) != Out && !Waits(Pc(s, u))
    ensures OthersLeave(s, RunStep(s, u, pending, choice), t)
  {
  }

  lemma OthersHandOver(s: State, u: Tid, pending: bool, choice: Tid, t: Tid)
    requires u != t && Waits(Pc(s, u)) && !Locking(Pc(s, u)) && Enabled(s, Run(u, pending, choice))
    ensures OthersLeave(s, RunStep(s, u, pending, choice), t)
  {
  }

  lemma OthersRun(s: State, u: Tid, pending: bool, choice: Tid, t: Tid)
    requires u != t && Enabled(s, Run(u, pending, choice))
    ensures OthersLeave(s, RunStep(s, u, pending, choice), t)
  {
    hide RunStep, OthersLeave;
    if Locking(Pc(s, u)) {
      OthersLock(s, u, pending, choice, t);
    } else if Waits(Pc(s, u)) {
      OthersHandOver(s, u, pending, choice, t);
    } else {
      OthersRelease(s, u, pending, choice, t);
    }
  }

  /** From the start of a condition wait up to the thread's next call: how many locks it has where. */
  lemma {:induction false} WaitLocks(states: seq<State>, steps: seq<Step>, i: nat, n: nat, t: Tid)
    requires IsRun(states, steps) && i < n < |states|
    requires steps[i] == CallCondWait(t, false) && (forall j :: i < j < n ==> !Calls(steps[j], t))
    ensures Held(states[i], t) > 0 && InWait(states[n], t, Held(states[i], t))
    decreases n
  {
    hide Inv;
    assert Takes(states[n - 1], states[n - 1 + 1], steps[n - 1]);
    if n > i + 1 {
      WaitLocks(states, steps, i, n - 1, t);
      RunInv(states, steps, n - 1);
      var a := steps[n - 1];
      AsleepOnMutex(states[n - 1], t);
      if a.Run? && a.t == t {
        AsleepOnMutex(states[n - 1], a.choice);
        InWaitRun(states[n - 1], t, a.pending, a.choice, Held(states[i], t));
      } else {
        InWaitOther(states[n - 1], a, t, Held(states[i], t));
      }
    }
  }

  /**
   From the release on until the wait ends, the thread has exactly one lock fewer than when it
   began the wait. About to sleep on the condition or asleep there, it does not own the mutex if
   and only if it had locked it once.
   */
  lemma CondWaitReleases(states: seq<State>, steps: seq<Step>, i: nat, n: nat, t: Tid)
    requires IsRun(states, steps) && i < n < |states|
    requires steps[i] == CallCondWait(t, false) && (forall j :: i < j < n ==> !Calls(steps[j], t))
    requires Waits(Pc(states[n], t))
    ensures Held(states[n], t) == Held(states[i], t) - 1
    ensures Pc(states[n], t) == CondPrep || Pc(states[n], t) == CondSleep ==>
              (states[n].owner != Some(t) <==> Held(states[i], t) == 1)
  {
    WaitLocks(states, steps, i, n, t);
    RunInv(states, steps, n);
    assert ThreadOk(states[n], t);
  }

  /** A condition wait that has ended left the thread as many locks as it began with. */
  lemma CondWaitRestores(states: seq<State>, steps: seq<Step>, i: nat, n: nat, t: Tid)
    requires IsRun(states, steps) && i < n < |states|
    requires steps[i] == CallCondWait(t, false) && (forall j :: i < j < n ==> !Calls(steps[j], t))
    requires Pc(states[n], t) == Out
    ensures Held(states[n], t) == Held(states[i], t) > 0 && states[n].owner == Some(t)
  {
    WaitLocks(states, steps, i, n, t);
    RunInv(states, steps, n);
    assert ThreadOk(states[n], t);
  }
}
