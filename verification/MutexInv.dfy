/** Safety of the mutex protocol over every run. */
module MutexInv {
  import opened Queues
  import opened Mutex

  /** The thread runs with the scheduler locked. */
  predicate Locked(p: PC) {
    match p
    case LockHeld(_, _) => true
    case LockPrep(_, _) => true
    case UnlockTry(cond) => cond
    case UnlockSlow(cond) => cond
    case UnlockHeld(_) => true
    case UnlockWake(_) => true
    case UnlockLook(_, _) => true
    case UnlockStore(_, _, _) => true
    case CondPrep => true
    case _ => false
  }

  /** A lock call that has been granted the mutex and not yet returned. */
  predicate Granted(p: PC) {
    p.LockGot? || (p.LockWoken? && p.result == 0)
  }

  /** An unlock call that is handing the mutex over. */
  predicate Releasing(p: PC) {
    p.UnlockWake? || p.UnlockLook? || p.UnlockStore?
  }

  predicate Sleeping(p: PC) {
    p.LockPrep? || p.LockSleep?
  }

  predicate MaySleepOnCond(p: PC) {
    match p
    case UnlockTry(cond) => cond
    case UnlockSlow(cond) => cond
    case UnlockHeld(cond) => cond
    case UnlockWake(cond) => cond
    case UnlockLook(_, cond) => cond
    case UnlockStore(_, _, cond) => cond
    case CondPrep => true
    case CondSleep => true
    case _ => false
  }

  /** The thread the releasing owner has picked, not yet stored. */
  function Picked(p: PC): Option<Tid> {
    match p
    case UnlockLook(next, _) => next
    case UnlockStore(next, _, _) => next
    case _ => None
  }

  ghost predicate QueuesOk(s: State) {
    && Distinct(s.sleepq) && Distinct(s.condq)
    && (forall t :: t in s.sleepq ==> Sleeping(Pc(s, t)))
    && (forall t :: Pc(s, t).LockSleep? ==> t in s.sleepq)
    && (forall t :: Pc(s, t).LockPrep? && t !in s.sleepq ==> Pc(s, t).intr)
    && (forall t :: t in s.condq ==> MaySleepOnCond(Pc(s, t)))
    && (forall t :: Pc(s, t) == CondSleep ==> t in s.condq)
  }

  ghost predicate CpuOk(s: State) {
    forall t: Tid :: Locked(Pc(s, t)) <==> s.cpu == Some(t)
  }

  /** A free mutex has no flags and no sleepers; sleepers imply the waiters bit. */
  ghost predicate WordOk(s: State) {
    && (s.owner == None ==> !s.waiters && !s.recursive && s.sleepq == [])
    && (s.sleepq != [] ==> s.waiters)
  }

  /** Inside a condition wait a lock call is not interruptible, so it ends with the mutex. */
  predicate CallOk(p: PC) {
    match p
    case LockTry(intr, cond) => cond ==> !intr
    case LockSlow(intr, cond) => cond ==> !intr
    case LockHeld(intr, cond) => cond ==> !intr
    case LockPrep(intr, cond) => cond ==> !intr
    case LockSleep(intr, cond) => cond ==> !intr
    case LockWoken(result, cond) => (result == 0 || result == -EINTR) && (cond ==> result == 0)
    case _ => true
  }

  /** The owner has locks to release, or its call is being granted the mutex, or it is handing it over. */
  ghost predicate OwnerOk(s: State, t: Tid) {
    var p := Pc(s, t);
    if Held(s, t) > 0 then
      && s.count == Held(s, t) && (Held(s, t) > 1 ==> s.recursive)
      && !Granted(p) && !Releasing(p) && !Sleeping(p) && !p.LockWoken?
    else
      || p.LockGot?
      || (p.LockWoken? && p.result == 0 && s.count == 1)
      || (Releasing(p) && ReleasingOk(s, t, p))
  }

  /** The next owner has been woken; with none, there are no sleepers left. */
  ghost predicate ReleasingOk(s: State, t: Tid, p: PC) {
    && (Picked(p).Some? ==> var w := Picked(p).value; w != t && Pc(s, w).LockWoken? && Pc(s, w).result == 0)
    && ((p.UnlockLook? || p.UnlockStore?) && p.next == None ==> s.sleepq == [])
    && (p.UnlockStore? && !p.waiting ==> s.sleepq == [])
    && (p.UnlockStore? && p.next == None ==> !p.waiting)
  }

  /** Any other thread holds nothing, and is being granted the mutex only as the one picked by the owner. */
  ghost predicate OtherOk(s: State, t: Tid) {
    var p := Pc(s, t);
    && Held(s, t) == 0 && !p.LockGot? && !Releasing(p) && !p.UnlockHeld?
    && (p.LockWoken? && p.result == 0 ==> s.owner.Some? && Picked(Pc(s, s.owner.value)) == Some(t))
  }

  ghost predicate ThreadOk(s: State, t: Tid) {
    CallOk(Pc(s, t)) && if s.owner == Some(t) then OwnerOk(s, t) else OtherOk(s, t)
  }

  /** Where threads are, whatever they hold. */
  ghost predicate ShapeOk(s: State) {
    QueuesOk(s) && CpuOk(s) && WordOk(s)
  }

  ghost predicate Inv(s: State) {
    ShapeOk(s) && forall t :: ThreadOk(s, t)
  }

  /** A step of thread t that leaves the queues alone and keeps t off the sleep queue. */
  ghost predicate Moves(s: State, n: State, t: Tid) {
    && n.sleepq == s.sleepq && n.condq == s.condq
    && (forall x :: x != t ==> Pc(n, x) == Pc(s, x))
    && (forall x :: x != t ==> Held(n, x) == Held(s, x))
    && !Sleeping(Pc(s, t)) && !Sleeping(Pc(n, t)) && Pc(n, t) != CondSleep
    && (t in s.condq ==> MaySleepOnCond(Pc(n, t)))
    && CanRun(s, t) && n.cpu == (if Locked(Pc(n, t)) then Some(t) else None)
    && CallOk(Pc(n, t))
  }

  lemma MovesShape(s: State, n: State, t: Tid)
    requires ShapeOk(s) && Moves(s, n, t) && WordOk(n)
    ensures ShapeOk(n)
  {
    assert t !in s.sleepq;
    forall x: Tid ensures Locked(Pc(n, x)) <==> n.cpu == Some(x) {
      assert Locked(Pc(s, x)) <==> s.cpu == Some(x);
    }
  }

  /** Such a step that also leaves the owner and the count alone changes no other thread's role. */
  lemma MovesRoles(s: State, n: State, t: Tid)
    requires Inv(s) && Moves(s, n, t) && ThreadOk(n, t)
    requires n.owner == s.owner && (s.owner != Some(t) ==> n.count == s.count && n.recursive == s.recursive)
    requires s.owner == Some(t) ==> Picked(Pc(n, t)) == Picked(Pc(s, t))
    requires Granted(Pc(s, t)) ==> Granted(Pc(n, t)) || s.owner == Some(t)
    ensures forall x :: ThreadOk(n, x)
  {
    forall x ensures ThreadOk(n, x) {
      assert ThreadOk(s, x);
      if s.owner.Some? { assert ThreadOk(s, s.owner.value); }
    }
  }

  lemma MovesInv(s: State, n: State, t: Tid)
    requires Inv(s) && Moves(s, n, t) && ThreadOk(n, t) && WordOk(n)
    requires n.owner == s.owner && (s.owner != Some(t) ==> n.count == s.count && n.recursive == s.recursive)
    requires s.owner == Some(t) ==> Picked(Pc(n, t)) == Picked(Pc(s, t))
    requires Granted(Pc(s, t)) ==> Granted(Pc(n, t)) || s.owner == Some(t)
    ensures Inv(n)
  {
    hide ThreadOk, QueuesOk, CpuOk, WordOk, Moves;
    MovesShape(s, n, t);
    MovesRoles(s, n, t);
  }

  /** The owner lets go without picking anyone. */
  lemma FreedInv(s: State, n: State, t: Tid)
    requires Inv(s) && Moves(s, n, t) && s.owner == Some(t) && Picked(Pc(s, t)) == None && WordOk(n)
    requires n.owner == None && Held(n, t) == 0 && !Granted(Pc(n, t)) && !Releasing(Pc(n, t)) && !Pc(n, t).UnlockHeld?
    ensures Inv(n)
  {
    MovesShape(s, n, t);
    hide QueuesOk, CpuOk, WordOk;
    forall x ensures ThreadOk(n, x) { assert ThreadOk(s, x); }
  }

  /** A thread takes a free mutex. */
  lemma TakenInv(s: State, n: State, t: Tid)
    requires Inv(s) && Moves(s, n, t) && s.owner == None && WordOk(n)
    requires n.owner == Some(t) && ThreadOk(n, t)
    ensures Inv(n)
  {
    MovesShape(s, n, t);
    hide QueuesOk, CpuOk, WordOk;
    forall x ensures ThreadOk(n, x) { assert ThreadOk(s, x); }
  }

  lemma LockTryInv(s: State, t: Tid, intr: bool, cond: bool)
    requires Inv(s) && Pc(s, t) == LockTry(intr, cond) && CanRun(s, t)
    ensures Inv(DoLockTry(s, t, intr, cond))
  {
    assert t in s.condq ==> MaySleepOnCond(Pc(s, t));
    hide QueuesOk;
    var n := DoLockTry(s, t, intr, cond);
    assert ThreadOk(s, t);
    if WordFree(s) {
      TakenInv(s, n, t);
    } else {
      MovesInv(s, n, t);
    }
  }

  lemma LockGotInv(s: State, t: Tid, cond: bool)
    requires Inv(s) && Pc(s, t) == LockGot(cond) && CanRun(s, t)
    ensures Inv(LockReturns(s.(count := 1), t, 0))
  {
    assert ThreadOk(s, t);
    var n := LockReturns(s.(count := 1), t, 0);
    MovesInv(s, n, t);
  }

  lemma CallLockInv(s: State, t: Tid, intr: bool, pending: bool)
    requires Inv(s) && Enabled(s, CallLock(t, intr, pending))
    ensures Inv(Next(s, CallLock(t, intr, pending)))
  {
    assert t in s.condq ==> MaySleepOnCond(Pc(s, t));
    hide QueuesOk;
    assert ThreadOk(s, t);
    var n := Next(s, CallLock(t, intr, pending));
    if n != s {
      MovesInv(s, n, t);
    }
  }

  lemma CallUnlockInv(s: State, t: Tid)
    requires Inv(s) && Enabled(s, CallUnlock(t))
    ensures Inv(Next(s, CallUnlock(t)))
  {
    assert t in s.condq ==> MaySleepOnCond(Pc(s, t));
    hide QueuesOk;
    assert ThreadOk(s, t);
    var n := Next(s, CallUnlock(t));
    MovesInv(s, n, t);
  }

  lemma LockSlowInv(s: State, t: Tid, intr: bool, cond: bool)
    requires Inv(s) && Pc(s, t) == LockSlow(intr, cond) && CanRun(s, t)
    ensures Inv(Go(s, t, LockHeld(intr, cond)).(cpu := Some(t)))
  {
    assert t in s.condq ==> MaySleepOnCond(Pc(s, t));
    hide QueuesOk;
    assert ThreadOk(s, t);
    var n := Go(s, t, LockHeld(intr, cond)).(cpu := Some(t));
    MovesInv(s, n, t);
  }

  /** While the scheduler is locked by another thread, the owner is not handing over. */
  lemma NotReleasing(s: State, t: Tid)
    requires Inv(s) && CanRun(s, t) && !Releasing(Pc(s, t)) && (s.cpu == Some(t) || Locked(Pc(s, t)))
    ensures s.owner.Some? ==> !Releasing(Pc(s, s.owner.value)) && Picked(Pc(s, s.owner.value)) == None
  {
    if s.owner.Some? {
      var u: Tid := s.owner.value;
      assert Locked(Pc(s, u)) <==> s.cpu == Some(u);
      assert Locked(Pc(s, t)) <==> s.cpu == Some(t);
    }
  }

  lemma LockHeldInv(s: State, t: Tid, intr: bool, cond: bool, pending: bool)
    requires Inv(s) && Pc(s, t) == LockHeld(intr, cond) && CanRun(s, t)
    ensures Inv(DoLockHeld(s, t, intr, cond, pending))
  {
    assert ThreadOk(s, t);
    var n := DoLockHeld(s, t, intr, cond, pending);
    if s.owner == Some(t) || (intr && pending && !WordFree(s)) {
      MovesInv(s, n, t);
    } else if WordFree(s) {
      TakenInv(s, n, t);
    } else {
      PrepInv(s, t, intr, cond);
    }
  }

  lemma PrepInv(s: State, t: Tid, intr: bool, cond: bool)
    requires Inv(s) && Pc(s, t) == LockHeld(intr, cond) && CanRun(s, t)
    requires s.owner.Some? && s.owner != Some(t)
    ensures Inv(Go(s, t, LockPrep(intr, cond)).(waiters := true, sleepq := s.sleepq + [t]))
  {
    assert ThreadOk(s, t);
    var n := Go(s, t, LockPrep(intr, cond)).(waiters := true, sleepq := s.sleepq + [t]);
    assert t !in s.sleepq;
    forall x: Tid ensures Locked(Pc(n, x)) <==> n.cpu == Some(x) {
      assert Locked(Pc(s, x)) <==> s.cpu == Some(x);
    }
    NotReleasing(s, t);
    forall x ensures ThreadOk(n, x) { assert ThreadOk(s, x); }
  }

  lemma LockPrepInv(s: State, t: Tid, intr: bool, cond: bool)
    requires Inv(s) && Pc(s, t) == LockPrep(intr, cond) && CanRun(s, t)
    ensures Inv(DoLockPrep(s, t, intr, cond))
  {
    assert ThreadOk(s, t);
    var n := DoLockPrep(s, t, intr, cond);
    forall x: Tid ensures Locked(Pc(n, x)) <==> n.cpu == Some(x) {
      assert Locked(Pc(s, x)) <==> s.cpu == Some(x);
    }
    assert QueuesOk(n);
    forall x ensures ThreadOk(n, x) {
      assert ThreadOk(s, x);
      if s.owner.Some? { assert ThreadOk(s, s.owner.value); }
    }
  }

  lemma LockWokenInv(s: State, t: Tid, result: int, cond: bool)
    requires Inv(s) && Pc(s, t) == LockWoken(result, cond) && CanRun(s, t)
    ensures Inv(LockReturns(s, t, result))
    ensures result == 0 ==> s.owner == Some(t)
  {
    assert t in s.condq ==> MaySleepOnCond(Pc(s, t));
    hide QueuesOk;
    assert ThreadOk(s, t);
    if s.owner.Some? {
      var u: Tid := s.owner.value;
      assert Locked(Pc(s, u)) <==> s.cpu == Some(u);
    }
    var n := LockReturns(s, t, result);
    MovesInv(s, n, t);
  }

  /** An unlock call returns from a state m that differs in the mutex word and the thread's own locks. */
  lemma ReturnMoves(s: State, m: State, t: Tid, cond: bool)
    requires Inv(s) && CanRun(s, t) && !Sleeping(Pc(s, t)) && (t in s.condq ==> cond)
    requires cond ==> s.cpu == Some(t)
    requires m == s.(owner := m.owner, waiters := m.waiters, recursive := m.recursive, count := m.count, held := m.held)
    requires forall x :: x != t ==> Held(m, x) == Held(s, x)
    ensures var n := UnlockReturns(m, t, cond);
            && Moves(s, n, t)
            && Pc(n, t) == (if cond then CondPrep else Out) && Held(n, t) == Held(m, t)
            && n.owner == m.owner && n.waiters == m.waiters && n.recursive == m.recursive && n.count == m.count
  {
  }

  /** What the position of an unlocking thread says about the scheduler lock and the condition queue. */
  lemma Unlocking(s: State, t: Tid)
    requires Inv(s)
    ensures MaySleepOnCond(Pc(s, t)) && Pc(s, t) != CondSleep ==> s.cpu == Some(t)
    ensures !MaySleepOnCond(Pc(s, t)) ==> t !in s.condq
  {
    assert Locked(Pc(s, t)) <==> s.cpu == Some(t);
  }

  lemma UnlockTryInv(s: State, t: Tid, cond: bool)
    requires Inv(s) && Pc(s, t) == UnlockTry(cond) && CanRun(s, t)
    ensures Inv(DoUnlockTry(s, t, cond))
  {
    assert ThreadOk(s, t);
    Unlocking(s, t);
    var n := DoUnlockTry(s, t, cond);
    if s.owner == Some(t) && !s.waiters && !s.recursive {
      ReturnMoves(s, Release(s.(owner := None), t), t, cond);
      hide QueuesOk, CpuOk, Moves, UnlockReturns;
      FreedInv(s, n, t);
    } else {
      MovesInv(s, n, t);
    }
  }

  lemma UnlockSlowInv(s: State, t: Tid, cond: bool)
    requires Inv(s) && Pc(s, t) == UnlockSlow(cond) && CanRun(s, t)
    ensures Inv(DoUnlockSlow(s, t, cond))
  {
    assert ThreadOk(s, t);
    Unlocking(s, t);
    var n := DoUnlockSlow(s, t, cond);
    if s.owner != Some(t) {
      ReturnMoves(s, s, t, cond);
      hide QueuesOk, CpuOk, Moves, UnlockReturns;
      MovesInv(s, n, t);
    } else {
      MovesInv(s, n, t);
    }
  }

  lemma UnlockHeldInv(s: State, t: Tid, cond: bool)
    requires Inv(s) && Pc(s, t) == UnlockHeld(cond) && CanRun(s, t)
    ensures Inv(DoUnlockHeld(s, t, cond))
  {
    assert ThreadOk(s, t);
    Unlocking(s, t);
    var n := DoUnlockHeld(s, t, cond);
    var r := Release(s.(count := s.count - 1), t);
    if r.count != 0 {
      ReturnMoves(s, r, t, cond);
      hide QueuesOk, CpuOk, Moves, UnlockReturns;
      MovesInv(s, n, t);
    } else if !s.waiters {
      ReturnMoves(s, r.(owner := None, recursive := false), t, cond);
      hide QueuesOk, CpuOk, Moves, UnlockReturns;
      FreedInv(s, n, t);
    } else {
      UnlockWakeStart(s, n, t, cond);
    }
  }

  lemma UnlockWakeStart(s: State, n: State, t: Tid, cond: bool)
    requires Inv(s) && Pc(s, t) == UnlockHeld(cond) && CanRun(s, t) && s.waiters
    requires n == Go(Release(s.(count := s.count - 1), t), t, UnlockWake(cond)) && n.count == 0
    ensures Inv(n)
  {
    assert ThreadOk(s, t);
    Unlocking(s, t);
    MovesInv(s, n, t);
  }

  lemma UnlockLookInv(s: State, t: Tid, next: Option<Tid>, cond: bool)
    requires Inv(s) && Pc(s, t) == UnlockLook(next, cond) && CanRun(s, t)
    ensures Inv(Go(s, t, UnlockStore(next, s.sleepq != [], cond)))
  {
    assert t in s.condq ==> MaySleepOnCond(Pc(s, t));
    hide QueuesOk;
    assert ThreadOk(s, t);
    assert Locked(Pc(s, t)) <==> s.cpu == Some(t);
    var n := Go(s, t, UnlockStore(next, s.sleepq != [], cond));
    MovesInv(s, n, t);
  }

  lemma UnlockStoreInv(s: State, t: Tid, next: Option<Tid>, waiting: bool, cond: bool)
    requires Inv(s) && Pc(s, t) == UnlockStore(next, waiting, cond) && CanRun(s, t)
    ensures Inv(DoUnlockStore(s, t, next, waiting, cond))
  {
    assert ThreadOk(s, t);
    Unlocking(s, t);
    var n := DoUnlockStore(s, t, next, waiting, cond);
    ReturnMoves(s, s.(owner := next, waiters := waiting, recursive := false, count := if next == None then s.count else 1), t, cond);
    if next == None {
      hide QueuesOk, CpuOk, Moves, UnlockReturns;
      FreedInv(s, n, t);
    } else {
      HandedInv(s, n, t);
    }
  }

  /** The owner hands the mutex to the thread it picked. */
  lemma HandedInv(s: State, n: State, t: Tid)
    requires Inv(s) && Moves(s, n, t) && WordOk(n) && s.owner == Some(t) && Held(s, t) == 0
    requires Picked(Pc(s, t)).Some? && n.owner == Picked(Pc(s, t)) && n.count == 1
    requires Held(n, t) == 0 && (Pc(n, t) == CondPrep || Pc(n, t) == Out)
    ensures Inv(n)
  {
    MovesShape(s, n, t);
    hide QueuesOk, CpuOk, WordOk;
    assert ThreadOk(s, t);
    forall x ensures ThreadOk(n, x) { assert ThreadOk(s, x); }
  }

  /** sch_wakeone takes a sleeper off the queue and grants it the mutex. */
  lemma UnlockWakeInv(s: State, t: Tid, cond: bool, choice: Tid)
    requires Inv(s) && Pc(s, t) == UnlockWake(cond) && CanRun(s, t) && (s.sleepq != [] ==> choice in s.sleepq)
    ensures Inv(DoUnlockWake(s, t, cond, choice))
  {
    assert ThreadOk(s, t);
    assert Locked(Pc(s, t)) <==> s.cpu == Some(t);
    var n := DoUnlockWake(s, t, cond, choice);
    if s.sleepq == [] {
      MovesInv(s, n, t);
    } else {
      PickShape(s, t, cond, choice);
      PickRoles(s, t, cond, choice);
    }
  }

  lemma PickShape(s: State, t: Tid, cond: bool, choice: Tid)
    requires Inv(s) && Pc(s, t) == UnlockWake(cond) && CanRun(s, t) && choice in s.sleepq
    ensures ShapeOk(DoUnlockWake(s, t, cond, choice))
    ensures Pc(s, choice).LockSleep?
  {
    var n := DoUnlockWake(s, t, cond, choice);
    assert Locked(Pc(s, t)) <==> s.cpu == Some(t);
    assert Locked(Pc(s, choice)) <==> s.cpu == Some(choice);
    assert ThreadOk(s, t);
    hide ThreadOk;
    WithoutDistinct(s.sleepq, choice);
    forall x: Tid ensures Locked(Pc(n, x)) <==> n.cpu == Some(x) {
      assert Locked(Pc(s, x)) <==> s.cpu == Some(x);
    }
    assert QueuesOk(n);
  }

  lemma PickRoles(s: State, t: Tid, cond: bool, choice: Tid)
    requires Inv(s) && Pc(s, t) == UnlockWake(cond) && CanRun(s, t) && choice in s.sleepq
    requires Pc(s, choice).LockSleep?
    ensures forall x :: ThreadOk(DoUnlockWake(s, t, cond, choice), x)
  {
    hide QueuesOk, CpuOk, WordOk;
    var n := DoUnlockWake(s, t, cond, choice);
    assert ThreadOk(s, t) && ThreadOk(s, choice);
    forall x ensures ThreadOk(n, x) { assert ThreadOk(s, x); }
  }

  /** Roles do not depend on who sleeps on the condition, nor on the scheduler lock. */
  lemma CondRoles(s: State, n: State, t: Tid)
    requires Inv(s) && n.owner == s.owner && n.count == s.count && n.recursive == s.recursive && n.sleepq == s.sleepq
    requires forall x :: x != t ==> Pc(n, x) == Pc(s, x)
    requires forall x :: Held(n, x) == Held(s, x)
    requires ThreadOk(n, t) && !Granted(Pc(s, t)) && !Releasing(Pc(s, t)) && Picked(Pc(n, t)) == None
    ensures forall x :: ThreadOk(n, x)
  {
    hide QueuesOk, CpuOk, WordOk;
    forall x ensures ThreadOk(n, x) {
      assert ThreadOk(s, x);
      if s.owner.Some? { assert ThreadOk(s, s.owner.value); }
    }
  }

  lemma CondPrepInv(s: State, t: Tid)
    requires Inv(s) && Pc(s, t) == CondPrep && CanRun(s, t)
    ensures Inv(DoCondPrep(s, t))
  {
    assert ThreadOk(s, t);
    var n := DoCondPrep(s, t);
    CondRoles(s, n, t);
    hide ThreadOk;
    forall x: Tid ensures Locked(Pc(n, x)) <==> n.cpu == Some(x) {
      assert Locked(Pc(s, x)) <==> s.cpu == Some(x);
    }
    assert t !in s.sleepq;
    assert QueuesOk(n);
  }

  lemma CallCondWaitInv(s: State, t: Tid, pending: bool)
    requires Inv(s) && Enabled(s, CallCondWait(t, pending))
    ensures Inv(Next(s, CallCondWait(t, pending)))
  {
    if !pending {
      assert ThreadOk(s, t);
      var n := Go(s, t, UnlockTry(true)).(condq := s.condq + [t], cpu := Some(t));
      assert n == Next(s, CallCondWait(t, pending));
      CondRoles(s, n, t);
      hide ThreadOk;
      forall x: Tid ensures Locked(Pc(n, x)) <==> n.cpu == Some(x) {
        assert Locked(Pc(s, x)) <==> s.cpu == Some(x);
      }
      assert t !in s.sleepq && t !in s.condq;
      assert QueuesOk(n);
    }
  }

  lemma CondWokenInv(s: State, t: Tid)
    requires Inv(s) && t in s.condq
    ensures Inv(CondWoken(s, t))
  {
    hide ThreadOk, ShapeOk;
    CondWokenRoles(s, t);
    CondWokenShape(s, t);
  }

  lemma CondWokenRoles(s: State, t: Tid)
    requires Inv(s) && t in s.condq
    ensures forall x :: ThreadOk(CondWoken(s, t), x)
  {
    assert ThreadOk(s, t);
    var n := CondWoken(s, t);
    if Pc(s, t) == CondSleep {
      CondRoles(s, n, t);
    } else {
      SameRoles(s, n);
    }
  }

  lemma CondWokenShape(s: State, t: Tid)
    requires Inv(s) && t in s.condq
    ensures ShapeOk(CondWoken(s, t))
  {
    hide ThreadOk;
    var n := CondWoken(s, t);
    WithoutDistinct(s.condq, t);
    forall x: Tid ensures Locked(Pc(n, x)) <==> n.cpu == Some(x) {
      assert Locked(Pc(s, x)) <==> s.cpu == Some(x);
    }
    assert t !in s.sleepq;
    assert QueuesOk(n);
  }

  lemma SameRoles(s: State, n: State)
    requires Inv(s) && n.(condq := s.condq) == s
    ensures forall x :: ThreadOk(n, x)
  {
    hide ShapeOk;
    forall x ensures ThreadOk(n, x) { assert ThreadOk(s, x); }
  }

  function Interrupted(s: State, t: Tid): State {
    var r := s.(sleepq := Without(s.sleepq, t));
    if Pc(s, t).LockSleep? then Go(r, t, LockWoken(-EINTR, Pc(s, t).cond)) else r
  }

  lemma InterruptedInv(s: State, t: Tid)
    requires Inv(s) && t in s.sleepq && Interruptible(Pc(s, t))
    ensures Inv(Interrupted(s, t))
  {
    InterruptedRoles(s, t);
    var n := Interrupted(s, t);
    hide ThreadOk;
    WithoutDistinct(s.sleepq, t);
    forall x: Tid ensures Locked(Pc(n, x)) <==> n.cpu == Some(x) {
      assert Locked(Pc(s, x)) <==> s.cpu == Some(x);
    }
    assert QueuesOk(n);
  }

  lemma InterruptedRoles(s: State, t: Tid)
    requires Inv(s) && t in s.sleepq && Interruptible(Pc(s, t))
    ensures forall x :: ThreadOk(Interrupted(s, t), x)
  {
    hide ShapeOk;
    var n := Interrupted(s, t);
    assert ThreadOk(s, t);
    forall x ensures ThreadOk(n, x) {
      assert ThreadOk(s, x);
      if s.owner.Some? { assert ThreadOk(s, s.owner.value); }
    }
  }
}
