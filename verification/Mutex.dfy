/**
 The mutex and condition wait protocols as a state machine over every interleaving:
 sys/sync/mutex.cpp and sys/sync/cond.cpp.

 One mutex and one condition variable are shared by any number of threads. Each step is one atomic
 access, or one section that runs with preemption off and that no interrupt can observe. While a
 thread holds the scheduler lock (`cpu`) no other thread runs, but interrupts may still wake
 sleepers. Which runnable thread goes next is arbitrary.
 */
module Mutex {
  import opened Queues

  type Tid = nat

  const EINTR: int := 4

  /** Where a thread is. `intr`: an interruptible call; `cond`: inside a condition wait. */
  datatype PC =
    | Out                                  // in no call
    | LockTry(intr: bool, cond: bool)      // before the compare-exchange of mutex_lock_s
    | LockGot(cond: bool)                  // it succeeded; the count is still to be set
    | LockSlow(intr: bool, cond: bool)     // before the slow path takes the spinlock
    | LockHeld(intr: bool, cond: bool)     // in the slow path, scheduler locked
    | LockPrep(intr: bool, cond: bool)     // sleep prepared, scheduler locked
    | LockSleep(intr: bool, cond: bool)    // asleep
    | LockWoken(result: int, cond: bool)   // awake with the sleep's result
    | UnlockTry(cond: bool)                // before the compare-exchange of mutex_unlock
    | UnlockSlow(cond: bool)               // before the slow path tests the owner
    | UnlockHeld(cond: bool)               // in the slow path, scheduler locked
    | UnlockWake(cond: bool)               // before sch_wakeone
    | UnlockLook(next: Option<Tid>, cond: bool)                 // before looking for further waiters
    | UnlockStore(next: Option<Tid>, waiting: bool, cond: bool) // before storing the new owner
    | CondPrep                             // mutex released inside a condition wait, scheduler locked
    | CondSleep                            // asleep on the condition

  /** The mutex word is the owner and its two flag bits. `held` counts each thread's unreleased locks. */
  datatype State = State(
    owner: Option<Tid>, waiters: bool, recursive: bool, count: int,
    sleepq: seq<Tid>, condq: seq<Tid>,
    cpu: Option<Tid>,
    pc: map<Tid, PC>,
    held: map<Tid, nat>)

  function Pc(s: State, t: Tid): PC {
    if t in s.pc then s.pc[t] else Out
  }

  function Held(s: State, t: Tid): nat {
    if t in s.held then s.held[t] else 0
  }

  function Go(s: State, t: Tid, p: PC): State {
    s.(pc := s.pc[t := p])
  }

  function Hold(s: State, t: Tid, n: nat): State {
    s.(held := s.held[t := n])
  }

  datatype Step =
    | CallLock(t: Tid, intr: bool, pending: bool)  // pending: an unblocked signal is pending
    | CallUnlock(t: Tid)
    | CallCondWait(t: Tid, pending: bool)
    | Run(t: Tid, pending: bool, choice: Tid)      // the thread's next step
    | Signal(t: Tid)                               // interrupt: a signal or a timeout for a sleeper
    | CondSignal(t: Tid)                           // a condition signal or broadcast wakes t

  predicate CanRun(s: State, t: Tid) {
    s.cpu == None || s.cpu == Some(t)
  }

  predicate Interruptible(p: PC) {
    (p.LockPrep? || p.LockSleep?) && p.intr
  }

  predicate Enabled(s: State, a: Step) {
    match a
    case CallLock(t, _, _) => s.cpu == None && Pc(s, t) == Out
    case CallUnlock(t) => s.cpu == None && Pc(s, t) == Out
    case CallCondWait(t, _) => s.cpu == None && Pc(s, t) == Out && Held(s, t) > 0
    case Run(t, _, choice) =>
      && CanRun(s, t)
      && var p := Pc(s, t);
         && p != Out && !p.LockSleep? && !p.CondSleep?
         && (p.UnlockWake? && s.sleepq != [] ==> choice in s.sleepq)
    case Signal(t) =>
      || (t in s.sleepq && Interruptible(Pc(s, t)))
      || t in s.condq
    case CondSignal(t) => s.cpu == None && t in s.condq
  }

  /** A lock call ends with a result; inside a condition wait the wait ends with it. */
  function LockReturns(s: State, t: Tid, result: int): State {
    var r := Go(s, t, Out);
    if result == 0 then Hold(r, t, Held(s, t) + 1) else r
  }

  /** An unlock call ends; inside a condition wait the thread goes on to sleep, scheduler still locked. */
  function UnlockReturns(s: State, t: Tid, cond: bool): State {
    if cond then Go(s, t, CondPrep) else Go(s, t, Out).(cpu := None)
  }

  /** Wake a thread that sleeps on the condition: it goes to lock the mutex again, signals blocked. */
  function CondWoken(s: State, t: Tid): State {
    var r := s.(condq := Without(s.condq, t));
    if Pc(s, t) == CondSleep then Go(r, t, LockTry(false, true)) else r
  }

  function Next(s: State, a: Step): State
    requires Enabled(s, a)
  {
    match a
    case CallLock(t, intr, pending) =>
      if intr && pending then s else Go(s, t, LockTry(intr, false))
    case CallUnlock(t) => Go(s, t, UnlockTry(false))
    case CallCondWait(t, pending) =>
      if pending then s
      else Go(s, t, UnlockTry(true)).(condq := s.condq + [t], cpu := Some(t))
    case Run(t, pending, choice) => RunStep(s, t, pending, choice)
    case Signal(t) =>
      if t in s.sleepq && Interruptible(Pc(s, t)) then
        var r := s.(sleepq := Without(s.sleepq, t));
        if Pc(s, t).LockSleep? then Go(r, t, LockWoken(-EINTR, Pc(s, t).cond)) else r
      else CondWoken(s, t)
    case CondSignal(t) => CondWoken(s, t)
  }

  /** The word is 0, so the compare-exchange of a lock call succeeds. */
  predicate WordFree(s: State) {
    s.owner == None && !s.waiters && !s.recursive
  }

  function DoLockTry(s: State, t: Tid, intr: bool, cond: bool): State {
    if WordFree(s) then Go(s, t, LockGot(cond)).(owner := Some(t))
    else Go(s, t, LockSlow(intr, cond))
  }

  function DoLockHeld(s: State, t: Tid, intr: bool, cond: bool, pending: bool): State {
    if s.owner == Some(t) then
      // we already hold the mutex
      LockReturns(s.(recursive := true, count := s.count + 1, cpu := None), t, 0)
    else if WordFree(s) then
      // mutex was freed since atomic test
      LockReturns(s.(owner := Some(t), count := 1, cpu := None), t, 0)
    else if intr && pending then
      LockReturns(s.(waiters := true, cpu := None), t, -EINTR)
    else
      Go(s, t, LockPrep(intr, cond)).(waiters := true, sleepq := s.sleepq + [t])
  }

  /** sch_continue_sleep: sleep, unless woken already. */
  function DoLockPrep(s: State, t: Tid, intr: bool, cond: bool): State {
    Go(s, t, if t in s.sleepq then LockSleep(intr, cond) else LockWoken(-EINTR, cond)).(cpu := None)
  }

  /** One lock fewer for thread t. */
  function Release(s: State, t: Tid): State {
    Hold(s, t, if Held(s, t) > 0 then Held(s, t) - 1 else 0)
  }

  function DoUnlockTry(s: State, t: Tid, cond: bool): State {
    // compare-exchange of the whole word, without flags, with 0
    if s.owner == Some(t) && !s.waiters && !s.recursive then
      UnlockReturns(Release(s.(owner := None), t), t, cond)
    else Go(s, t, UnlockSlow(cond))
  }

  function DoUnlockSlow(s: State, t: Tid, cond: bool): State {
    // can't unlock if we don't hold
    if s.owner != Some(t) then UnlockReturns(s, t, cond)
    else Go(s, t, UnlockHeld(cond)).(cpu := Some(t))
  }

  function DoUnlockHeld(s: State, t: Tid, cond: bool): State {
    var r := Release(s.(count := s.count - 1), t);
    if r.count != 0 then UnlockReturns(r, t, cond)
    else if !s.waiters then UnlockReturns(r.(owner := None, recursive := false), t, cond)
    else Go(r, t, UnlockWake(cond))
  }

  function DoUnlockWake(s: State, t: Tid, cond: bool, choice: Tid): State {
    if s.sleepq == [] then Go(s, t, UnlockLook(None, cond))
    else
      var w := Go(s.(sleepq := Without(s.sleepq, choice)), choice, LockWoken(0, PcCond(s, choice)));
      Go(w, t, UnlockLook(Some(choice), cond))
  }

  function DoUnlockStore(s: State, t: Tid, next: Option<Tid>, waiting: bool, cond: bool): State {
    UnlockReturns(s.(owner := next, waiters := waiting, recursive := false,
                     count := if next == None then s.count else 1), t, cond)
  }

  function DoCondPrep(s: State, t: Tid): State {
    Go(s, t, if t in s.condq then CondSleep else LockTry(false, true)).(cpu := None)
  }

  function RunStep(s: State, t: Tid, pending: bool, choice: Tid): State {
    match Pc(s, t)
    case LockTry(intr, cond) => DoLockTry(s, t, intr, cond)
    case LockGot(_) => LockReturns(s.(count := 1), t, 0)
    case LockSlow(intr, cond) => Go(s, t, LockHeld(intr, cond)).(cpu := Some(t))
    case LockHeld(intr, cond) => DoLockHeld(s, t, intr, cond, pending)
    case LockPrep(intr, cond) => DoLockPrep(s, t, intr, cond)
    case LockWoken(result, _) => LockReturns(s, t, result)
    case UnlockTry(cond) => DoUnlockTry(s, t, cond)
    case UnlockSlow(cond) => DoUnlockSlow(s, t, cond)
    case UnlockHeld(cond) => DoUnlockHeld(s, t, cond)
    case UnlockWake(cond) => DoUnlockWake(s, t, cond, choice)
    case UnlockLook(next, cond) => Go(s, t, UnlockStore(next, s.sleepq != [], cond))
    case UnlockStore(next, waiting, cond) => DoUnlockStore(s, t, next, waiting, cond)
    case CondPrep => DoCondPrep(s, t)
    case _ => s
  }

  function PcCond(s: State, t: Tid): bool {
    match Pc(s, t)
    case LockPrep(_, cond) => cond
    case LockSleep(_, cond) => cond
    case _ => false
  }
}
