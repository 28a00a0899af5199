/** When callbacks of the timer thread come, over every run of timer operations: sys/kern/timer.cpp. */
module TimerRuns {
  import opened Queues
  import opened TimerSpec

  /** Operations, at interrupt level or by threads, and the two steps of the timer thread. */
  datatype Step =
    | DoCallout(t: nat, nsec: nat, interval: nat)
    | DoStop(t: nat)
    | DoTick(monotonic: nat)
    | DoTake
    | DoCall

  ghost predicate Enabled(s: State, step: Step) {
    match step
    case DoTick(monotonic) => s.now <= monotonic
    case DoTake => s.taken == None && s.expired != [] && s.expired[0] in s.timers
    case DoCall => s.taken.Some?
    case _ => true
  }

  ghost function Next(s: State, period: nat, step: Step): State
    requires Enabled(s, step)
  {
    match step
    case DoCallout(t, nsec, interval) => Callout(s, period, t, nsec, interval)
    case DoStop(t) => Stop(s, t)
    case DoTick(monotonic) => Tick(s, monotonic)
    case DoTake => Take(s)
    case DoCall => s.(taken := None)
  }

  function Init(): State {
    State(map[], [], [], 0, None)
  }

  ghost predicate Follows(s: State, n: State, period: nat, step: Step) {
    Enabled(s, step) && n == Next(s, period, step)
  }

  /** `states` is a run of the machine taking `steps`, each enabled where it is taken. */
  ghost predicate IsRun(states: seq<State>, steps: seq<Step>, period: nat) {
    && |states| == |steps| + 1
    && states[0] == Init()
    && forall i :: 0 <= i < |steps| ==> Follows(states[i], states[i + 1], period, steps[i])
  }

  lemma StepInv(s: State, period: nat, step: Step)
    requires Inv(s) && Enabled(s, step)
    ensures Inv(Next(s, period, step))
  {
    hide Callout, Stop, Tick, Take;
    match step
    case DoCallout(t, nsec, interval) => CalloutInv(s, period, t, nsec, interval);
    case DoStop(t) => StopInv(s, t);
    case DoTick(monotonic) => TickInv(s, monotonic);
    case DoTake => TakeInv(s);
    case DoCall =>
  }

  /** In every state of every run the lists are as they should be. */
  lemma {:induction false} RunInv(states: seq<State>, steps: seq<Step>, period: nat, n: nat)
    requires IsRun(states, steps, period) && n < |states|
    ensures Inv(states[n])
    decreases n
  {
    if n > 0 {
      RunInv(states, steps, period, n - 1);
      assert Follows(states[n - 1], states[n - 1 + 1], period, steps[n - 1]);
      StepInv(states[n - 1], period, steps[n - 1]);
    }
  }

  // ----- what a run has done to a timer -----

  /** The step arms or stops timer t. */
  predicate Requests(step: Step, t: nat) {
    (step.DoCallout? || step.DoStop?) && step.t == t
  }

  /** The last of the first m steps that arms or stops timer t. */
  function Last(steps: seq<Step>, m: nat, t: nat): (r: Option<nat>)
    requires m <= |steps|
    ensures r.Some? ==> r.value < m && Requests(steps[r.value], t)
    ensures forall i :: (if r.Some? then r.value + 1 else 0) <= i < m ==> !Requests(steps[i], t)
  {
    if m == 0 then None
    else if Requests(steps[m - 1], t) then Some(m - 1)
    else Last(steps, m - 1, t)
  }

  predicate IsTake(s: State, step: Step, t: nat) {
    step == DoTake && s.expired != [] && s.expired[0] == t
  }

  predicate IsCall(s: State, step: Step, t: nat) {
    step == DoCall && s.taken == Some(t)
  }

  /** How often timer t was taken, and called back, after step r and before step m. */
  function Takes(states: seq<State>, steps: seq<Step>, r: nat, m: nat, t: nat): nat
    requires m <= |steps| <= |states|
  {
    if m <= r + 1 then 0 else Takes(states, steps, r, m - 1, t) + if IsTake(states[m - 1], steps[m - 1], t) then 1 else 0
  }

  function Calls(states: seq<State>, steps: seq<Step>, r: nat, m: nat, t: nat): nat
    requires m <= |steps| <= |states|
  {
    if m <= r + 1 then 0 else Calls(states, steps, r, m - 1, t) + if IsCall(states[m - 1], steps[m - 1], t) then 1 else 0
  }

  /** The earliest time for the first callback after the timer was armed at step r. */
  function First(states: seq<State>, steps: seq<Step>, period: nat, r: nat): nat
    requires r < |steps| <= |states| && steps[r].DoCallout?
  {
    states[r].now + period + if steps[r].nsec == 1 then 0 else steps[r].nsec
  }

  predicate Holds(s: State, t: nat) {
    s.taken == Some(t)
  }

  /** The callback number k of a timer is due: none after the first if it has no interval. */
  predicate Due(now: nat, first: nat, interval: nat, k: nat) {
    now >= first + k * interval && (interval == 0 ==> k == 0)
  }

  /**
     The callback at step i is that of an armed timer, and comes no sooner than the number of callbacks
     since it was armed allows.
   */
  ghost predicate Rightful(states: seq<State>, steps: seq<Step>, period: nat, i: nat)
    requires i < |steps| <= |states| && states[i].taken.Some?
  {
    var t := states[i].taken.value;
    match Last(steps, i, t)
    case None => false
    case Some(r) =>
      steps[r].DoCallout? && Due(states[i].now, First(states, steps, period, r), steps[r].interval, Calls(states, steps, r, i, t))
  }

  // ----- the invariant of one timer -----

  /** Timer t was armed, `stale` when it was taken then; since then it was taken `takes` times and called back `calls` times. */
  ghost predicate Armed(s: State, t: nat, first: nat, interval: nat, takes: nat, calls: nat, stale: bool) {
    && t in s.timers && s.timers[t].interval == interval
    && (s.timers[t].active ==> s.timers[t].expire == first + takes * interval)
    && (if interval > 0 then s.timers[t].active else takes == if s.timers[t].active then 0 else 1)
    && (takes > 0 ==> s.now >= first + (takes - 1) * interval)
    // every take is followed by a callback; one that the arming found taken comes on top
    && calls + (if Holds(s, t) then 1 else 0) == takes + (if stale then 1 else 0)
  }

  /** A stopped timer is called back once more if the stop found it taken, and not otherwise. */
  ghost predicate Stopped(s: State, t: nat, calls: nat, stale: bool) {
    !Active(s.timers, t) && calls + (if Holds(s, t) then 1 else 0) == if stale then 1 else 0
  }

  ghost predicate History(states: seq<State>, steps: seq<Step>, period: nat, m: nat, t: nat)
    requires m <= |steps| < |states|
  {
    match Last(steps, m, t)
    case None => t !in states[m].timers
    case Some(r) =>
      if steps[r].DoStop? then Stopped(states[m], t, Calls(states, steps, r, m, t), Holds(states[r], t))
      else Armed(states[m], t, First(states, steps, period, r), steps[r].interval,
                 Takes(states, steps, r, m, t), Calls(states, steps, r, m, t), Holds(states[r], t))
  }

  lemma NextTake(first: nat, takes: nat, interval: nat)
    ensures first + takes * interval + interval == first + (takes + 1) * interval
  {
  }

  // ----- what each step does to it -----

  ghost predicate Untouched(s: State, n: State, t: nat) {
    && (t in n.timers <==> t in s.timers) && (t in s.timers ==> n.timers[t] == s.timers[t])
    && n.now >= s.now && Holds(n, t) == Holds(s, t)
  }

  lemma Elsewhere(s: State, period: nat, step: Step, t: nat)
    requires Inv(s) && Enabled(s, step)
    requires !Requests(step, t) && !IsTake(s, step, t) && !IsCall(s, step, t)
    ensures Untouched(s, Next(s, period, step), t)
  {
    hide Inv, Inserted, Expire;
    if step.DoTick? {
      TickInv(s, step.monotonic);
    }
  }

  lemma ArmedNow(s: State, period: nat, t: nat, nsec: nat, interval: nat)
    ensures Armed(Callout(s, period, t, nsec, interval), t, s.now + period + (if nsec == 1 then 0 else nsec), interval, 0, 0,
                  Holds(s, t))
  {
    hide Inserted;
  }

  lemma ArmedTaken(s: State, t: nat, first: nat, interval: nat, takes: nat, calls: nat, stale: bool)
    requires Inv(s) && Armed(s, t, first, interval, takes, calls, stale)
    requires Enabled(s, DoTake) && s.expired[0] == t
    ensures Armed(Take(s), t, first, interval, takes + 1, calls, stale)
  {
    hide Inserted, Inv;
    TakeInv(s);
    NextTake(first, takes, interval);
  }

  lemma LastAt(steps: seq<Step>, m: nat, t: nat)
    requires m < |steps|
    ensures Last(steps, m + 1, t) == if Requests(steps[m], t) then Some(m) else Last(steps, m, t)
  {
  }

  lemma HistoryRequest(states: seq<State>, steps: seq<Step>, period: nat, m: nat, t: nat)
    requires m < |steps| < |states| && Follows(states[m], states[m + 1], period, steps[m]) && Inv(states[m])
    requires Requests(steps[m], t)
    ensures History(states, steps, period, m + 1, t)
  {
    hide Inv, Callout, Stop, Armed;
    LastAt(steps, m, t);
    var s := states[m];
    match steps[m]
    case DoCallout(_, nsec, interval) => ArmedNow(s, period, t, nsec, interval);
    case DoStop(_) =>
      StopInv(s, t);
      StopTaken(s, t);
  }

  lemma StopTaken(s: State, t: nat)
    ensures Stop(s, t).taken == s.taken
  {
  }

  /** The other steps, with nothing to follow before the first request. */
  lemma HistoryOther(states: seq<State>, steps: seq<Step>, period: nat, m: nat, t: nat)
    requires m < |steps| < |states| && Follows(states[m], states[m + 1], period, steps[m]) && Inv(states[m])
    requires !Requests(steps[m], t) && History(states, steps, period, m, t)
    ensures History(states, steps, period, m + 1, t)
  {
    hide Inv, Callout, Stop, Tick, Take, Delay;
    LastAt(steps, m, t);
    var s := states[m];
    if IsTake(s, steps[m], t) {
      TakeInv(s);
      var r := Last(steps, m, t).value;
      ArmedTaken(s, t, First(states, steps, period, r), steps[r].interval,
                 Takes(states, steps, r, m, t), Calls(states, steps, r, m, t), Holds(states[r], t));
    } else if !IsCall(s, steps[m], t) {
      Elsewhere(s, period, steps[m], t);
    }
  }

  lemma {:induction false} RunHistory(states: seq<State>, steps: seq<Step>, period: nat, m: nat, t: nat)
    requires IsRun(states, steps, period) && m <= |steps|
    ensures History(states, steps, period, m, t)
    decreases m
  {
    hide Inv, Armed, Stopped, Next;
    if m > 0 {
      RunHistory(states, steps, period, m - 1, t);
      RunInv(states, steps, period, m - 1);
      assert Follows(states[m - 1], states[m - 1 + 1], period, steps[m - 1]);
      if Requests(steps[m - 1], t) {
        HistoryRequest(states, steps, period, m - 1, t);
      } else {
        HistoryOther(states, steps, period, m - 1, t);
      }
    }
  }

  // ----- callbacks -----

  /**
     A callback that the last request for its timer did not find taken is rightful. One that it did find taken
     comes in addition: after a stop it is the only one, and of an armed timer it makes every later callback come
     in the place of the one before.
   */
  lemma CallTime(states: seq<State>, steps: seq<Step>, period: nat, i: nat)
    requires IsRun(states, steps, period) && i < |steps| && steps[i] == DoCall
    ensures states[i].taken.Some?
    ensures var t := states[i].taken.value;
            Last(steps, i, t).Some? &&
            var r := Last(steps, i, t).value;
            var k := Calls(states, steps, r, i, t);
            && (!Holds(states[r], t) ==> Rightful(states, steps, period, i))
            && (Rightful(states, steps, period, i) ==>
                  && steps[r].DoCallout? && states[i].now >= states[r].now + period + k * steps[r].interval
                  && (steps[r].nsec != 1 ==> states[i].now >= states[r].now + period + steps[r].nsec + k * steps[r].interval))
            && (steps[r].DoStop? ==> Holds(states[r], t) && k == 0)
            && (steps[r].DoCallout? && k > 0 ==>
                  Due(states[i].now, First(states, steps, period, r), steps[r].interval,
                      if Holds(states[r], t) then k - 1 else k))
  {
    assert Follows(states[i], states[i + 1], period, steps[i]);
    var t := states[i].taken.value;
    RunInv(states, steps, period, i);
    RunHistory(states, steps, period, i, t);
  }

  /** Every callback that `r`, the last request for timer t, leads to is rightful. */
  ghost predicate AllRightful(states: seq<State>, steps: seq<Step>, period: nat, r: nat, t: nat)
    requires |steps| < |states|
  {
    forall i :: 0 <= i < |steps| && IsCall(states[i], steps[i], t) && Last(steps, i, t) == Some(r) ==>
      Rightful(states, steps, period, i)
  }

  /** However the run goes on from here. */
  ghost predicate SafeRequest(states: seq<State>, steps: seq<Step>, period: nat, r: nat, t: nat) {
    forall states', steps' ::
      IsRun(states', steps', period) && states <= states' && steps <= steps' ==>
        AllRightful(states', steps', period, r, t)
  }

  /** Arming or stopping a timer is safe exactly when the timer thread is not between taking it and its callback. */
  lemma RequestExact(states: seq<State>, steps: seq<Step>, period: nat, t: nat)
    requires period > 0 && IsRun(states, steps, period) && steps != [] && Requests(steps[|steps| - 1], t)
    ensures SafeRequest(states, steps, period, |steps| - 1, t) <==> !Holds(states[|steps| - 1], t)
  {
    var r := |steps| - 1;
    if Holds(states[r], t) {
      var states', steps' := StaleCall(states, steps, period, t);
      assert !AllRightful(states', steps', period, r, t);
    } else {
      forall states', steps' | IsRun(states', steps', period) && states <= states' && steps <= steps'
        ensures AllRightful(states', steps', period, r, t)
      {
        LaterCalls(states', steps', period, r, t);
      }
    }
  }

  lemma LaterCalls(states: seq<State>, steps: seq<Step>, period: nat, r: nat, t: nat)
    requires IsRun(states, steps, period) && r < |steps| && !Holds(states[r], t)
    ensures AllRightful(states, steps, period, r, t)
  {
    hide Rightful;
    forall i | 0 <= i < |steps| && IsCall(states[i], steps[i], t) && Last(steps, i, t) == Some(r)
      ensures Rightful(states, steps, period, i)
    {
      CallTime(states, steps, period, i);
    }
  }

  /** The callback right after the request: before its time, or of a timer that is stopped. */
  lemma StaleCall(states: seq<State>, steps: seq<Step>, period: nat, t: nat) returns (states': seq<State>, steps': seq<Step>)
    requires period > 0 && IsRun(states, steps, period) && steps != [] && Requests(steps[|steps| - 1], t)
    requires Holds(states[|steps| - 1], t)
    ensures states <= states' && steps' == steps + [DoCall] && IsRun(states', steps', period)
    ensures IsCall(states'[|steps|], DoCall, t) && Last(steps', |steps|, t) == Some(|steps| - 1)
    ensures !Rightful(states', steps', period, |steps|)
  {
    hide Inserted;
    var n := |steps|;
    assert Follows(states[n - 1], states[n - 1 + 1], period, steps[n - 1]);
    states', steps' := states + [states[n].(taken := None)], steps + [DoCall];
    assert IsCall(states[n], DoCall, t);
    forall i | 0 <= i < |steps'| ensures Follows(states'[i], states'[i + 1], period, steps'[i]) {
      if i < n {
        assert Follows(states[i], states[i + 1], period, steps[i]);
      }
    }
    LastAt(steps', n - 1, t);
  }

  // ----- runs that the property fails in -----

  lemma OneMore(states: seq<State>, steps: seq<Step>, period: nat, step: Step, n: State)
    requires IsRun(states, steps, period) && Follows(states[|steps|], n, period, step)
    ensures IsRun(states + [n], steps + [step], period)
  {
    hide Enabled, Next;
    var states', steps' := states + [n], steps + [step];
    forall i | 0 <= i < |steps'| ensures Follows(states'[i], states'[i + 1], period, steps'[i]) {
      if i < |steps| {
        assert Follows(states[i], states[i + 1], period, steps[i]);
      }
    }
  }

  lemma TickOne(s: State, monotonic: nat)
    requires s.waiting == [0] && s.expired == [] && Expiry(s.timers, 0) <= monotonic
    ensures Tick(s, monotonic) == s.(waiting := [], expired := [0], now := monotonic)
  {
    assert s.waiting[1..] == [];
    assert [0] + s.expired == [0];
    assert Expire(s.(waiting := [], expired := [0], now := monotonic)).waiting == [];
  }

  /** Timer 0 after it was armed to call back at the next tick, which came, and it was taken. */
  function Taken(period: nat): State {
    State(map[0 := Tmr(false, period, 0)], [], [], period, Some(0))
  }

  function TakenSteps(period: nat): seq<Step> {
    [DoCallout(0, 0, 0), DoTick(period), DoTake]
  }

  lemma TakenRun(period: nat) returns (states: seq<State>)
    ensures |states| == 4 && IsRun(states, TakenSteps(period), period) && states[3] == Taken(period)
  {
    var tmr := map[0 := Tmr(true, period, 0)];
    var s1, s2 := State(tmr, [0], [], 0, None), State(tmr, [], [0], period, None);
    assert IsRun([Init()], [], period);
    OneMore([Init()], [], period, DoCallout(0, 0, 0), s1);
    var steps: seq<Step> := [] + [DoCallout(0, 0, 0)];
    TickOne(s1, period);
    OneMore([Init()] + [s1], steps, period, DoTick(period), s2);
    OneMore([Init()] + [s1] + [s2], steps + [DoTick(period)], period, DoTake, Taken(period));
    states := [Init()] + [s1] + [s2] + [Taken(period)];
    assert TakenSteps(period) == steps + [DoTick(period)] + [DoTake];
  }

  /** A timer is called back after it was stopped. */
  lemma CallAfterStop(period: nat) returns (states: seq<State>, steps: seq<Step>)
    requires period > 0
    ensures IsRun(states, steps, period) && steps == TakenSteps(period) + [DoStop(0), DoCall]
    ensures IsCall(states[4], steps[4], 0) && Last(steps, 4, 0) == Some(3)
    ensures !Active(states[4].timers, 0) && !Rightful(states, steps, period, 4)
  {
    states := TakenRun(period);
    OneMore(states, TakenSteps(period), period, DoStop(0), Taken(period));
    states, steps := StaleCall(states + [Taken(period)], TakenSteps(period) + [DoStop(0)], period, 0);
  }

  function Rearmed(period: nat, nsec: nat, interval: nat): map<nat, Tmr> {
    map[0 := Tmr(true, 2 * period + Delay(nsec), interval)]
  }

  /** Timer 0 taken again, once that is due. */
  function TakenAgain(period: nat, nsec: nat, interval: nat): State {
    var due := 2 * period + Delay(nsec);
    if interval == 0 then State(map[0 := Tmr(false, due, 0)], [], [], due, Some(0))
    else State(map[0 := Tmr(true, due + interval, interval)], [0], [], due, Some(0))
  }

  function EarlySteps(period: nat, nsec: nat, interval: nat): seq<Step> {
    TakenSteps(period)
    + [DoCallout(0, nsec, interval), DoCall, DoTick(2 * period + Delay(nsec)), DoTake, DoCall]
  }

  lemma RearmedSteps(period: nat, nsec: nat, interval: nat)
    ensures var due, tmr := 2 * period + Delay(nsec), Rearmed(period, nsec, interval);
            var s4, s5, s6 := State(tmr, [0], [], period, Some(0)), State(tmr, [0], [], period, None),
                              State(tmr, [], [0], due, None);
            && Follows(Taken(period), s4, period, DoCallout(0, nsec, interval)) && Follows(s4, s5, period, DoCall)
            && Follows(s5, s6, period, DoTick(due))
            && Follows(s6, TakenAgain(period, nsec, interval), period, DoTake)
  {
    TickOne(State(Rearmed(period, nsec, interval), [0], [], period, None), 2 * period + Delay(nsec));
  }

  lemma EarlyRun(period: nat, nsec: nat, interval: nat) returns (states: seq<State>)
    ensures |states| == 9 && IsRun(states, EarlySteps(period, nsec, interval), period)
    ensures states[3] == Taken(period) && states[4] == State(Rearmed(period, nsec, interval), [0], [], period, Some(0))
    ensures states[5].taken == states[6].taken == None && states[7] == TakenAgain(period, nsec, interval)
  {
    hide Follows, IsRun;
    var due, tmr, again := 2 * period + Delay(nsec), Rearmed(period, nsec, interval), TakenAgain(period, nsec, interval);
    var s4, s5, s6 := State(tmr, [0], [], period, Some(0)), State(tmr, [0], [], period, None),
                      State(tmr, [], [0], due, None);
    RearmedSteps(period, nsec, interval);
    states := TakenRun(period);
    var steps := TakenSteps(period);
    OneMore(states, steps, period, DoCallout(0, nsec, interval), s4);
    states, steps := states + [s4], steps + [DoCallout(0, nsec, interval)];
    OneMore(states, steps, period, DoCall, s5);
    states, steps := states + [s5], steps + [DoCall];
    OneMore(states, steps, period, DoTick(due), s6);
    states, steps := states + [s6], steps + [DoTick(due)];
    OneMore(states, steps, period, DoTake, again);
    states, steps := states + [again], steps + [DoTake];
    CallFollows(again, period);
    OneMore(states, steps, period, DoCall, again.(taken := None));
    states, steps := states + [again.(taken := None)], steps + [DoCall];
    assert steps == EarlySteps(period, nsec, interval);
  }

  lemma CallFollows(s: State, period: nat)
    requires s.taken.Some?
    ensures Follows(s, s.(taken := None), period, DoCall)
  {
  }

  /** A timer armed while it is taken has its first callback at once, and its second when the first is due. */
  lemma EarlyCalls(period: nat, nsec: nat, interval: nat) returns (states: seq<State>)
    requires period > 0
    ensures |states| == 9 && IsRun(states, EarlySteps(period, nsec, interval), period)
    ensures var steps := EarlySteps(period, nsec, interval);
            && IsCall(states[4], steps[4], 0) && Last(steps, 4, 0) == Some(3) && !Rightful(states, steps, period, 4)
            && IsCall(states[7], steps[7], 0) && Last(steps, 7, 0) == Some(3) && !Rightful(states, steps, period, 7)
            && Calls(states, steps, 3, 7, 0) == 1 && states[7].now == First(states, steps, period, 3)
  {
    states := EarlyRun(period, nsec, interval);
    hide IsRun;
    var steps := EarlySteps(period, nsec, interval);
    LastAt(steps, 3, 0);
    LastAt(steps, 4, 0);
    LastAt(steps, 5, 0);
    LastAt(steps, 6, 0);
    assert Calls(states, steps, 3, 5, 0) == 1;
    assert Calls(states, steps, 3, 6, 0) == 1;
  }
}
