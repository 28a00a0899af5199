/** Whole calls of the mutex, from the step that makes one to the step that ends it, in every run. */
module MutexCalls {
  import opened Queues
  import opened Mutex
  import opened MutexInv
  import opened MutexSafety

  /** Thread t makes no other call after step i and before state n. */
  ghost predicate OneCall(steps: seq<Step>, i: nat, n: nat, t: Tid) {
    i < n <= |steps| && forall j :: i < j < n ==> !Calls(steps[j], t)
  }

  /** The call of thread t ends with step n - 1. */
  ghost predicate EndsAt(states: seq<State>, n: nat, t: Tid) {
    0 < n < |states| && Pc(states[n - 1], t) != Out && Pc(states[n], t) == Out
  }

  // ----- mutex_unlock -----

  predicate OfUnlock(p: PC) {
    match p
    case UnlockTry(cond) => !cond
    case UnlockSlow(cond) => !cond
    case UnlockHeld(cond) => !cond
    case UnlockWake(cond) => !cond
    case UnlockLook(_, cond) => !cond
    case UnlockStore(_, _, cond) => !cond
    case _ => p == Out
  }

  /** In an unlock call begun with h locks, or after it. */
  ghost predicate InUnlock(s: State, t: Tid, h: nat) {
    var p := Pc(s, t);
    && OfUnlock(p)
    && (Releasing(p) ==> h == 1)
    && Held(s, t) == if (Releasing(p) || p == Out) && h > 0 then h - 1 else h
  }

  /** A step of others leaves a thread alone that sleeps on neither queue. */
  lemma OthersStep(s: State, a: Step, t: Tid)
    requires Enabled(s, a) && !Calls(a, t) && !(a.Run? && a.t == t) && t !in s.sleepq && t !in s.condq
    ensures Pc(Next(s, a), t) == Pc(s, t) && Held(Next(s, a), t) == Held(s, t)
  {
    hide RunStep;
    if a.Run? {
      OthersRun(s, a.t, a.pending, a.choice, t);
    }
  }

  lemma AwakeInUnlock(s: State, t: Tid, h: nat)
    requires Inv(s) && InUnlock(s, t, h)
    ensures t !in s.sleepq && t !in s.condq && ThreadOk(s, t)
    ensures Pc(s, t).UnlockTry? || Pc(s, t).UnlockSlow? || Pc(s, t) == Out ==> (s.owner == Some(t) <==> Held(s, t) > 0)
  {
    assert ThreadOk(s, t);
  }

  lemma UnlockRelease(s: State, t: Tid, pending: bool, choice: Tid, h: nat)
    requires ThreadOk(s, t) && InUnlock(s, t, h) && !Releasing(Pc(s, t)) && Pc(s, t) != Out
    ensures InUnlock(RunStep(s, t, pending, choice), t, h)
  {
    hide DoLockTry, DoLockHeld, DoLockPrep, DoCondPrep, LockReturns, DoUnlockWake, DoUnlockStore;
    match Pc(s, t)
    case UnlockTry(_) =>
    case UnlockSlow(_) =>
    case UnlockHeld(_) =>
  }

  lemma UnlockHandOver(s: State, t: Tid, pending: bool, choice: Tid, h: nat)
    requires InUnlock(s, t, h) && Releasing(Pc(s, t)) && Enabled(s, Run(t, pending, choice)) && t !in s.sleepq
    ensures InUnlock(RunStep(s, t, pending, choice), t, h)
  {
    hide DoLockTry, DoLockHeld, DoLockPrep, DoCondPrep, LockReturns, DoUnlockTry, DoUnlockSlow, DoUnlockHeld;
    match Pc(s, t)
    case UnlockWake(_) =>
    case UnlockLook(_, _) =>
    case UnlockStore(_, _, _) =>
  }

  lemma UnlockRun(s: State, t: Tid, pending: bool, choice: Tid, h: nat)
    requires ThreadOk(s, t) && InUnlock(s, t, h) && Enabled(s, Run(t, pending, choice)) && t !in s.sleepq
    ensures InUnlock(RunStep(s, t, pending, choice), t, h)
  {
    hide InUnlock, RunStep, ThreadOk;
    if Releasing(Pc(s, t)) {
      UnlockHandOver(s, t, pending, choice, h);
    } else {
      UnlockRelease(s, t, pending, choice, h);
    }
  }

  lemma {:induction false} UnlockLocks(states: seq<State>, steps: seq<Step>, i: nat, n: nat, t: Tid)
    requires IsRun(states, steps) && OneCall(steps, i, n, t) && steps[i] == CallUnlock(t)
    ensures InUnlock(states[n], t, Held(states[i], t))
    ensures Pc(states[i + 1], t) == UnlockTry(false)
    decreases n
  {
    hide Inv, ThreadOk, RunStep;
    assert Takes(states[i], states[i + 1], steps[i]);
    if n > i + 1 {
      UnlockLocks(states, steps, i, n - 1, t);
      RunInv(states, steps, n - 1);
      assert Takes(states[n - 1], states[n - 1 + 1], steps[n - 1]);
      var a := steps[n - 1];
      AwakeInUnlock(states[n - 1], t, Held(states[i], t));
      if a.Run? && a.t == t {
        UnlockRun(states[n - 1], t, a.pending, a.choice, Held(states[i], t));
      } else {
        OthersStep(states[n - 1], a, t);
      }
    }
  }

  lemma OwnsOut(s: State, t: Tid)
    requires Inv(s) && Pc(s, t) == Out
    ensures s.owner == Some(t) <==> Held(s, t) > 0
  {
    assert ThreadOk(s, t);
  }

  /**
   An unlock call takes one lock from the owner, and none from another thread, for which it changes nothing.
   Right after the step that makes the call the thread is in it.
   */
  lemma UnlockResult(states: seq<State>, steps: seq<Step>, i: nat, n: nat, t: Tid)
    requires IsRun(states, steps) && OneCall(steps, i, n, t) && steps[i] == CallUnlock(t)
    ensures Pc(states[i + 1], t) != Out && states[i + 1] == states[i].(pc := states[i + 1].pc)
    ensures Pc(states[n], t) == Out && states[i].owner == Some(t) ==> Held(states[n], t) == Held(states[i], t) - 1
    ensures states[i].owner != Some(t) ==> Held(states[n], t) == Held(states[i], t) == 0
    ensures states[i].owner != Some(t) && steps[n - 1].Run? && steps[n - 1].t == t ==>
              states[n] == states[n - 1].(pc := states[n].pc, cpu := states[n].cpu)
  {
    hide Inv, ThreadOk, InUnlock, RunStep;
    UnlockLocks(states, steps, i, n, t);
    RunInv(states, steps, i);
    assert Takes(states[i], states[i + 1], steps[i]);
    OwnsOut(states[i], t);
    InUnlockHeld(states[n], t, Held(states[i], t));
    if states[i].owner != Some(t) && steps[n - 1].Run? && steps[n - 1].t == t {
      UnlockLocks(states, steps, i, n - 1, t);
      RunInv(states, steps, n - 1);
      assert Takes(states[n - 1], states[n - 1 + 1], steps[n - 1]);
      NotOwnerRun(states[n - 1], t, steps[n - 1].pending, steps[n - 1].choice);
    }
  }

  lemma InUnlockHeld(s: State, t: Tid, h: nat)
    requires InUnlock(s, t, h)
    ensures Pc(s, t) == Out ==> Held(s, t) == if h > 0 then h - 1 else 0
    ensures h == 0 ==> Held(s, t) == 0
  {
  }

  lemma NotOwnerRun(s: State, t: Tid, pending: bool, choice: Tid)
    requires Inv(s) && InUnlock(s, t, 0) && Enabled(s, Run(t, pending, choice))
    ensures var n := RunStep(s, t, pending, choice); n == s.(pc := n.pc, cpu := n.cpu)
  {
    assert ThreadOk(s, t);
    match Pc(s, t)
    case UnlockTry(_) =>
    case UnlockSlow(_) =>
  }

  // ----- to whom it hands the mutex -----

  /** Thread w was asleep in a lock call at state j, or nobody was and w is None. */
  predicate Sleeper(s: State, w: Option<Tid>) {
    if s.sleepq == [] then w == None else w.Some? && w.value in s.sleepq
  }

  predicate HasPicked(p: PC) {
    p.UnlockLook? || p.UnlockStore?
  }

  lemma PickStep(s: State, a: Step, t: Tid)
    requires a.Run? && a.t == t && Enabled(s, a) && OfUnlock(Pc(s, t))
    ensures var p := Pc(Next(s, a), t);
            HasPicked(p) ==> if Pc(s, t).UnlockWake? then Sleeper(s, p.next) else Pc(s, t) == UnlockLook(p.next, false)
  {
    hide DoLockTry, DoLockHeld, DoLockPrep, DoCondPrep, LockReturns;
  }

  /** The thread picked was asleep when the call looked for one to wake. */
  lemma {:induction false} PickedAt(states: seq<State>, steps: seq<Step>, i: nat, n: nat, t: Tid) returns (j: nat)
    requires IsRun(states, steps) && OneCall(steps, i, n, t) && steps[i] == CallUnlock(t) && HasPicked(Pc(states[n], t))
    ensures i < j < n && Pc(states[j], t).UnlockWake? && Sleeper(states[j], Pc(states[n], t).next)
    decreases n
  {
    hide Inv, ThreadOk, Next, Enabled, InUnlock;
    UnlockLocks(states, steps, i, n, t);
    UnlockLocks(states, steps, i, n - 1, t);
    RunInv(states, steps, n - 1);
    assert Takes(states[n - 1], states[n - 1 + 1], steps[n - 1]);
    var a := steps[n - 1];
    AwakeInUnlock(states[n - 1], t, Held(states[i], t));
    UnlockPc(states[n - 1], t, Held(states[i], t));
    if a.Run? && a.t == t {
      PickStep(states[n - 1], a, t);
      if Pc(states[n - 1], t).UnlockWake? {
        j := n - 1;
      } else {
        j := PickedAt(states, steps, i, n - 1, t);
      }
    } else {
      OthersStep(states[n - 1], a, t);
      j := PickedAt(states, steps, i, n - 1, t);
    }
  }

  lemma UnlockPc(s: State, t: Tid, h: nat)
    requires InUnlock(s, t, h)
    ensures OfUnlock(Pc(s, t))
  {
  }

  /** The step that ends an unlock call of the owner and leaves it no lock. */
  lemma HandOffStep(s: State, t: Tid, pending: bool, choice: Tid, h: nat)
    requires Inv(s) && InUnlock(s, t, h) && h > 0 && Enabled(s, Run(t, pending, choice))
    requires var n := RunStep(s, t, pending, choice); Pc(n, t) == Out && Held(n, t) == 0
    ensures var n := RunStep(s, t, pending, choice);
            if Pc(s, t).UnlockStore? then
              && n.owner == Pc(s, t).next
              && (n.owner.Some? ==> n.owner != Some(t) && Pc(n, n.owner.value).LockWoken? && Pc(n, n.owner.value).result == 0)
            else n.owner == None && s.sleepq == []
  {
    assert ThreadOk(s, t);
    hide ThreadOk, QueuesOk, CpuOk, DoLockTry, DoLockHeld, DoLockPrep, DoCondPrep, LockReturns;
    match Pc(s, t)
    case UnlockTry(_) => FreeNoSleepers(s, t);
    case UnlockSlow(_) => OwnerIs(s, t);
    case UnlockHeld(_) => FreeNoSleepers(s, t);
    case UnlockStore(next, _, _) =>
      if next.Some? { NextAwake(s, t); }
  }

  lemma FreeNoSleepers(s: State, t: Tid)
    requires Inv(s) && (Pc(s, t).UnlockTry? || Pc(s, t).UnlockHeld?)
    ensures !s.waiters ==> s.sleepq == []
    ensures Held(s, t) > 0 ==> s.count == Held(s, t)
  {
    assert ThreadOk(s, t);
  }

  lemma OwnerIs(s: State, t: Tid)
    requires Inv(s) && Held(s, t) > 0
    ensures s.owner == Some(t)
  {
    assert ThreadOk(s, t);
  }

  lemma NextAwake(s: State, t: Tid)
    requires Inv(s) && Pc(s, t).UnlockStore? && Pc(s, t).next.Some?
    ensures var w := Pc(s, t).next.value; w != t && Pc(s, w).LockWoken? && Pc(s, w).result == 0
  {
    assert ThreadOk(s, t);
  }

  /**
   When an unlock call ends and leaves its thread no lock: with threads asleep in lock calls when it handed the mutex
   over, it has given it to one of them, woken with 0; with none asleep the mutex is free.
   */
  lemma HandOff(states: seq<State>, steps: seq<Step>, i: nat, n: nat, t: Tid) returns (j: nat)
    requires IsRun(states, steps) && OneCall(steps, i, n, t) && steps[i] == CallUnlock(t) && EndsAt(states, n, t)
    requires states[i].owner == Some(t) && Held(states[n], t) == 0
    ensures i < j < n && (Pc(states[j], t).UnlockWake? || j == n - 1)
    ensures if states[j].sleepq == [] then states[n].owner == None
            else
              && states[n].owner.Some? && states[n].owner.value in states[j].sleepq && states[n].owner != Some(t)
              && Pc(states[n], states[n].owner.value).LockWoken? && Pc(states[n], states[n].owner.value).result == 0
  {
    hide Inv, ThreadOk, RunStep, InUnlock;
    var h := Held(states[i], t);
    UnlockLocks(states, steps, i, n, t);
    assert n > i + 1;
    UnlockLocks(states, steps, i, n - 1, t);
    RunInv(states, steps, i);
    RunInv(states, steps, n - 1);
    assert Takes(states[i], states[i + 1], steps[i]);
    assert Takes(states[n - 1], states[n - 1 + 1], steps[n - 1]);
    OwnsOut(states[i], t);
    var a := steps[n - 1];
    AwakeInUnlock(states[n - 1], t, h);
    if a.Run? && a.t == t {
      HandOffStep(states[n - 1], t, a.pending, a.choice, h);
      if Pc(states[n - 1], t).UnlockStore? {
        j := PickedAt(states, steps, i, n - 1, t);
      } else {
        j := n - 1;
      }
    } else {
      OthersStep(states[n - 1], a, t);
    }
  }

  // ----- mutex_lock -----

  predicate OfLock(p: PC, intr: bool) {
    match p
    case LockTry(i, cond) => i == intr && !cond
    case LockGot(cond) => !cond
    case LockSlow(i, cond) => i == intr && !cond
    case LockHeld(i, cond) => i == intr && !cond
    case LockPrep(i, cond) => i == intr && !cond
    case LockSleep(i, cond) => i == intr && !cond
    case LockWoken(result, cond) => (intr || result == 0) && !cond
    case _ => false
  }

  /** The step ends the lock call, with 0 if it cannot be interrupted, or takes it on with as many locks. */
  ghost predicate LockOn(s: State, n: State, t: Tid, pending: bool, intr: bool) {
    if LockRunEnds(s, t, pending).Some? then Pc(n, t) == Out && (intr || LockRunEnds(s, t, pending).value == 0)
    else OfLock(Pc(n, t), intr) && Held(n, t) == Held(s, t)
  }

  lemma LockHeldRun(s: State, t: Tid, pending: bool, intr: bool)
    requires OfLock(Pc(s, t), intr) && Pc(s, t).LockHeld?
    ensures LockOn(s, DoLockHeld(s, t, intr, false, pending), t, pending, intr)
  {
  }

  lemma LockRun(s: State, t: Tid, pending: bool, choice: Tid, intr: bool)
    requires OfLock(Pc(s, t), intr) && Enabled(s, Run(t, pending, choice))
    requires Pc(s, t).LockPrep? && t !in s.sleepq ==> Pc(s, t).intr
    ensures LockOn(s, RunStep(s, t, pending, choice), t, pending, intr)
  {
    hide DoUnlockTry, DoUnlockSlow, DoUnlockHeld, DoUnlockWake, DoUnlockStore, DoCondPrep, DoLockHeld, WordFree;
    match Pc(s, t)
    case LockHeld(_, _) => LockHeldRun(s, t, pending, intr);
    case LockTry(_, _) =>
    case LockGot(_) =>
    case LockSlow(_, _) =>
    case LockPrep(_, _) =>
    case LockWoken(_, _) =>
  }

  /** Others wake a thread in a lock call with 0, or with -EINTR if it can be interrupted. */
  lemma LockOthers(s: State, a: Step, t: Tid, intr: bool)
    requires Enabled(s, a) && OfLock(Pc(s, t), intr) && !Calls(a, t) && !(a.Run? && a.t == t) && t !in s.condq
    requires t in s.sleepq ==> Sleeping(Pc(s, t))
    ensures OfLock(Pc(Next(s, a), t), intr) && Held(Next(s, a), t) == Held(s, t)
  {
    hide RunStep;
    if a.Run? {
      OthersRun(s, a.t, a.pending, a.choice, t);
    }
  }

  lemma LockQueues(s: State, t: Tid, intr: bool)
    requires Inv(s) && OfLock(Pc(s, t), intr)
    ensures t !in s.condq && (t in s.sleepq ==> Sleeping(Pc(s, t))) && (Pc(s, t).LockPrep? && t !in s.sleepq ==> Pc(s, t).intr)
  {
  }

  /** The call goes on with the locks it began with, until a step ends it. */
  lemma {:induction false} LockGoesOn(states: seq<State>, steps: seq<Step>, i: nat, n: nat, t: Tid, intr: bool, pending: bool)
    requires IsRun(states, steps) && OneCall(steps, i, n, t) && steps[i] == CallLock(t, intr, pending) && !(intr && pending)
    requires forall j :: i < j < n ==> Pc(states[j], t) != Out
    ensures Pc(states[i + 1], t) == LockTry(intr, false)
    ensures Pc(states[n], t) == Out ==>
              n > i + 1 && Held(states[n - 1], t) == Held(states[i], t) && LockEnds(states[n - 1], steps[n - 1], t).Some?
              && (intr || LockEnds(states[n - 1], steps[n - 1], t).value == 0)
    ensures Pc(states[n], t) != Out ==> OfLock(Pc(states[n], t), intr) && Held(states[n], t) == Held(states[i], t)
    decreases n
  {
    hide Inv, RunStep, LockRunEnds;
    assert Takes(states[i], states[i + 1], steps[i]);
    if n > i + 1 {
      LockGoesOn(states, steps, i, n - 1, t, intr, pending);
      RunInv(states, steps, n - 1);
      assert Takes(states[n - 1], states[n - 1 + 1], steps[n - 1]);
      var a := steps[n - 1];
      LockQueues(states[n - 1], t, intr);
      if a.Run? && a.t == t {
        LockRun(states[n - 1], t, a.pending, a.choice, intr);
      } else {
        LockOthers(states[n - 1], a, t, intr);
      }
    }
  }

  /**
   A lock call that can be interrupted fails at once when a signal is pending. Any other enters the call, and ends with one
   more lock as the owner or, only if it can be interrupted, with as many locks as before.
   */
  lemma LockCall(states: seq<State>, steps: seq<Step>, i: nat, n: nat, t: Tid, intr: bool, pending: bool)
    requires IsRun(states, steps) && OneCall(steps, i, n, t) && steps[i] == CallLock(t, intr, pending)
    requires forall j :: i < j < n ==> Pc(states[j], t) != Out
    ensures intr && pending ==> states[i + 1] == states[i] && LockEnds(states[i], steps[i], t) == Some(-4)
    ensures !(intr && pending) ==> Pc(states[i + 1], t) != Out && states[i + 1] == states[i].(pc := states[i + 1].pc)
    ensures !(intr && pending) && Pc(states[n], t) == Out ==>
              LockEnds(states[n - 1], steps[n - 1], t).Some? &&
              var r := LockEnds(states[n - 1], steps[n - 1], t).value;
              && Held(states[n], t) == Held(states[i], t) + (if r == 0 then 1 else 0)
              && (r == 0 ==> states[n].owner == Some(t)) && (r == 0 || (intr && r == -4))
  {
    hide Inv, Next, Enabled, LockEnds;
    assert Takes(states[i], states[i + 1], steps[i]);
    LockStart(states[i], t, intr, pending);
    if !(intr && pending) {
      LockGoesOn(states, steps, i, n, t, intr, pending);
      if Pc(states[n], t) == Out {
        LockResult(states, steps, n - 1, t);
      }
    }
  }

  lemma LockStart(s: State, t: Tid, intr: bool, pending: bool)
    requires Enabled(s, CallLock(t, intr, pending))
    ensures var n := Next(s, CallLock(t, intr, pending));
            if intr && pending then n == s && LockEnds(s, CallLock(t, intr, pending), t) == Some(-4)
            else Pc(n, t) != Out && n == s.(pc := n.pc)
  {
  }

  // ----- condition waits -----

  /** The wait has given the mutex up, or is over. */
  predicate Given(p: PC) {
    p == Out || Waits(p)
  }

  lemma CondStart(s: State, t: Tid)
    requires Enabled(s, CallCondWait(t, false))
    ensures var n := Next(s, CallCondWait(t, false)); Pc(n, t) != Out && t in n.condq
  {
  }

  lemma GivenRun(s: State, a: Step, t: Tid, h: nat)
    requires a.Run? && a.t == t && InWait(s, t, h) && h > 0 && Enabled(s, a) && !Given(Pc(s, t))
    ensures Pc(Next(s, a), t) != Out
  {
    hide DoLockTry, DoLockHeld, DoLockPrep, DoCondPrep, LockReturns, DoUnlockWake, DoUnlockStore;
    match Pc(s, t)
    case UnlockTry(_) =>
    case UnlockSlow(_) =>
    case UnlockHeld(_) =>
  }

  /** A condition wait enters the call, asleep on the condition, and does not end before it has given up the mutex. */
  lemma {:induction false} CondWaitGives(states: seq<State>, steps: seq<Step>, i: nat, n: nat, t: Tid) returns (j: nat)
    requires IsRun(states, steps) && OneCall(steps, i, n, t) && steps[i] == CallCondWait(t, false) && Pc(states[n], t) == Out
    ensures Pc(states[i + 1], t) != Out && t in states[i + 1].condq
    ensures i < j < n && Waits(Pc(states[j], t)) && Held(states[j], t) == Held(states[i], t) - 1
    decreases n
  {
    hide Inv, InWait, Next, Enabled;
    assert Takes(states[i], states[i + 1], steps[i]);
    CondStart(states[i], t);
    assert Takes(states[n - 1], states[n - 1 + 1], steps[n - 1]);
    WaitLocks(states, steps, i, n - 1, t);
    RunInv(states, steps, n - 1);
    var h, a := Held(states[i], t), steps[n - 1];
    if Waits(Pc(states[n - 1], t)) {
      j := n - 1;
      CondWaitReleases(states, steps, i, j, t);
    } else if Pc(states[n - 1], t) == Out {
      j := CondWaitGives(states, steps, i, n - 1, t);
    } else {
      if a.Run? && a.t == t {
        GivenRun(states[n - 1], a, t, h);
      } else {
        AsleepOnMutex(states[n - 1], t);
        NotOutOther(states[n - 1], a, t);
      }
      j := i;
      assert false;
    }
  }

  lemma NotOutOther(s: State, a: Step, t: Tid)
    requires Enabled(s, a) && !Calls(a, t) && !(a.Run? && a.t == t) && Pc(s, t) != Out
    requires t in s.sleepq ==> Sleeping(Pc(s, t))
    ensures Pc(Next(s, a), t) != Out
  {
    hide RunStep;
    if a.Run? {
      OthersRun(s, a.t, a.pending, a.choice, t);
    }
  }

  /** A wait that finds a signal pending changes nothing. */
  lemma CondWaitPending(states: seq<State>, steps: seq<Step>, i: nat, t: Tid)
    requires IsRun(states, steps) && i < |steps| && steps[i] == CallCondWait(t, true)
    ensures states[i + 1] == states[i]
  {
    assert Takes(states[i], states[i + 1], steps[i]);
  }

  /**
   A signal takes an interruptible sleeper off the mutex, with -EINTR, or a waiter off the condition, and so does a
   condition signal: neither is asleep afterwards. Locks, owner and other threads are left alone.
   */
  lemma WakeUps(states: seq<State>, steps: seq<Step>, i: nat, t: Tid)
    requires IsRun(states, steps) && i < |steps| && (steps[i] == Signal(t) || steps[i] == CondSignal(t))
    ensures var s, n := states[i], states[i + 1];
            && n == s.(pc := n.pc, sleepq := n.sleepq, condq := n.condq)
            && (forall x :: x != t ==> Pc(n, x) == Pc(s, x))
            && !Pc(n, t).LockSleep? && Pc(n, t) != CondSleep
            && (t in s.sleepq || t in s.condq) && t !in n.sleepq && t !in n.condq
            && (t in s.sleepq ==> Pc(s, t).intr && Pc(n, t) == if Pc(s, t).LockSleep? then LockWoken(-4, Pc(s, t).cond) else Pc(s, t))
            && (t in s.condq ==> Pc(n, t) == if Pc(s, t) == CondSleep then LockTry(false, true) else Pc(s, t))
            && (forall x :: x != t ==> (x in n.sleepq <==> x in s.sleepq) && (x in n.condq <==> x in s.condq))
  {
    assert Takes(states[i], states[i + 1], steps[i]);
    RunInv(states, steps, i);
    hide CpuOk, WordOk, ThreadOk;
  }

  // ----- every step of a call takes it on -----

  /** How many steps of its own a call takes at most from here. */
  function Rank(p: PC): nat {
    match p
    case Out => 0
    case LockWoken(_, _) => 1
    case LockGot(_) => 1
    case LockSleep(_, _) => 2
    case LockPrep(_, _) => 3
    case LockHeld(_, _) => 4
    case LockSlow(_, _) => 5
    case LockTry(_, _) => 6
    case CondSleep => 7
    case CondPrep => 8
    case UnlockStore(_, _, cond) => if cond then 9 else 1
    case UnlockLook(_, cond) => if cond then 10 else 2
    case UnlockWake(cond) => if cond then 11 else 3
    case UnlockHeld(cond) => if cond then 12 else 4
    case UnlockSlow(cond) => if cond then 13 else 5
    case UnlockTry(cond) => if cond then 14 else 6
  }

  lemma RankLock(s: State, t: Tid, pending: bool, choice: Tid)
    requires Enabled(s, Run(t, pending, choice)) && (Locking(Pc(s, t)) || Pc(s, t) == CondPrep)
    ensures Rank(Pc(RunStep(s, t, pending, choice), t)) < Rank(Pc(s, t))
  {
    hide DoUnlockTry, DoUnlockSlow, DoUnlockHeld, DoUnlockWake, DoUnlockStore;
  }

  lemma RankRelease(s: State, t: Tid, pending: bool, choice: Tid)
    requires Pc(s, t).UnlockTry? || Pc(s, t).UnlockSlow? || Pc(s, t).UnlockHeld?
    ensures Rank(Pc(RunStep(s, t, pending, choice), t)) < Rank(Pc(s, t))
  {
    hide DoLockTry, DoLockHeld, DoLockPrep, DoCondPrep, LockReturns, DoUnlockWake, DoUnlockStore;
    match Pc(s, t)
    case UnlockTry(_) =>
    case UnlockSlow(_) =>
    case UnlockHeld(_) =>
  }

  lemma RankHandOver(s: State, t: Tid, pending: bool, choice: Tid)
    requires Releasing(Pc(s, t))
    ensures Rank(Pc(RunStep(s, t, pending, choice), t)) < Rank(Pc(s, t))
  {
    hide DoLockTry, DoLockHeld, DoLockPrep, DoCondPrep, LockReturns, DoUnlockTry, DoUnlockSlow, DoUnlockHeld;
    match Pc(s, t)
    case UnlockWake(_) =>
    case UnlockLook(_, _) =>
    case UnlockStore(_, _, _) =>
  }

  lemma RankUnlock(s: State, t: Tid, pending: bool, choice: Tid)
    requires Enabled(s, Run(t, pending, choice)) && !Locking(Pc(s, t)) && Pc(s, t) != CondPrep
    ensures Rank(Pc(RunStep(s, t, pending, choice), t)) < Rank(Pc(s, t))
  {
    hide RunStep, Rank;
    if Releasing(Pc(s, t)) {
      RankHandOver(s, t, pending, choice);
    } else {
      RankRelease(s, t, pending, choice);
    }
  }

  lemma RankOther(s: State, a: Step, t: Tid)
    requires Enabled(s, a) && !Calls(a, t) && !(a.Run? && a.t == t) && (t in s.sleepq ==> Sleeping(Pc(s, t)))
    ensures Rank(Pc(Next(s, a), t)) <= Rank(Pc(s, t))
  {
    hide RunStep;
    if a.Run? {
      OthersRun(s, a.t, a.pending, a.choice, t);
    }
  }

  /** Steps that thread t took itself after step i and before state n. */
  function OwnSteps(steps: seq<Step>, i: nat, n: nat, t: Tid): nat
    requires n <= |steps|
  {
    if n <= i + 1 then 0 else OwnSteps(steps, i, n - 1, t) + if steps[n - 1].Run? && steps[n - 1].t == t then 1 else 0
  }

  /** No call takes more steps of its own than its rank when it begins: 6 for a lock or an unlock, 14 for a condition wait. */
  lemma {:induction false} CallBounded(states: seq<State>, steps: seq<Step>, i: nat, n: nat, t: Tid)
    requires IsRun(states, steps) && OneCall(steps, i, n, t)
    ensures OwnSteps(steps, i, n, t) + Rank(Pc(states[n], t)) <= Rank(Pc(states[i + 1], t))
    ensures OwnSteps(steps, i, n, t) <= 14 && (steps[i] == CallUnlock(t) ==> OwnSteps(steps, i, n, t) <= 6)
    decreases n
  {
    hide Inv, RunStep, Rank;
    assert Takes(states[i], states[i + 1], steps[i]);
    RankMost(Pc(states[i + 1], t));
    if n > i + 1 {
      CallBounded(states, steps, i, n - 1, t);
      RunInv(states, steps, n - 1);
      assert Takes(states[n - 1], states[n - 1 + 1], steps[n - 1]);
      var s, a := states[n - 1], steps[n - 1];
      AsleepOnMutex(s, t);
      if a.Run? && a.t == t {
        if Locking(Pc(s, t)) || Pc(s, t) == CondPrep { RankLock(s, t, a.pending, a.choice); } else { RankUnlock(s, t, a.pending, a.choice); }
      } else {
        RankOther(s, a, t);
      }
    }
  }

  lemma RankMost(p: PC)
    ensures Rank(p) <= 14 && (p == UnlockTry(false) ==> Rank(p) == 6)
  {
  }

  // ----- somebody can always go on -----

  /** Thread u can take its next step, with a signal pending or not. */
  ghost predicate CanStep(s: State, u: Tid) {
    exists choice :: Enabled(s, Run(u, false, choice)) && Enabled(s, Run(u, true, choice))
  }

  lemma StepsOn(s: State, u: Tid)
    requires s.cpu == None || s.cpu == Some(u)
    requires Pc(s, u) != Out && !Pc(s, u).LockSleep? && Pc(s, u) != CondSleep
    ensures CanStep(s, u)
  {
    var choice := if s.sleepq != [] then s.sleepq[0] else u;
    assert Enabled(s, Run(u, false, choice)) && Enabled(s, Run(u, true, choice));
  }

  /**
   No run gets stuck. A thread with the scheduler locked can take its next step. With none, every thread can: it is free
   to call, or goes on with its call, or sleeps on the condition and can be signalled, or sleeps in a lock call. Then the
   owner is another thread, that is free to unlock, goes on with its own call, or sleeps on the condition. A sleeper that
   can be interrupted can be signalled at any time.
   */
  lemma NoDeadlock(states: seq<State>, steps: seq<Step>, n: nat, t: Tid)
    requires IsRun(states, steps) && n < |states|
    ensures var s := states[n];
            && (s.cpu.Some? ==> CanStep(s, s.cpu.value))
            && (Pc(s, t).LockSleep? && Pc(s, t).intr ==> Enabled(s, Signal(t)))
            && (s.cpu == None ==>
                  match Pc(s, t)
                  case Out =>
                    && (forall intr, pending :: Enabled(s, CallLock(t, intr, pending))) && Enabled(s, CallUnlock(t))
                    && (Held(s, t) > 0 ==> forall pending :: Enabled(s, CallCondWait(t, pending)))
                  case CondSleep => Enabled(s, CondSignal(t)) && Enabled(s, Signal(t))
                  case LockSleep(_, _) =>
                    && s.owner.Some? && s.owner.value != t
                    && (Pc(s, s.owner.value) == Out ==> Held(s, s.owner.value) > 0 && Enabled(s, CallUnlock(s.owner.value)))
                    && (Pc(s, s.owner.value) != Out ==> CanStep(s, s.owner.value) || Enabled(s, CondSignal(s.owner.value)))
                  case _ => CanStep(s, t))
  {
    hide CanStep;
    RunInv(states, steps, n);
    var s := states[n];
    if s.cpu.Some? {
      assert Locked(Pc(s, s.cpu.value));
      StepsOn(s, s.cpu.value);
    } else if Pc(s, t).LockSleep? {
      NoLostWakeup(states, steps, n, t);
      OwnerGoesOn(s);
    } else if Pc(s, t) != Out && Pc(s, t) != CondSleep {
      StepsOn(s, t);
    }
  }

  lemma OwnerGoesOn(s: State)
    requires Inv(s) && s.cpu == None && s.owner.Some?
    ensures var u := s.owner.value;
            && (Pc(s, u) == Out ==> Held(s, u) > 0)
            && (Pc(s, u) != Out ==> CanStep(s, u) || Enabled(s, CondSignal(u)))
  {
    hide CanStep;
    var u := s.owner.value;
    assert ThreadOk(s, u);
    if Pc(s, u) != Out && Pc(s, u) != CondSleep {
      StepsOn(s, u);
    }
  }
}
