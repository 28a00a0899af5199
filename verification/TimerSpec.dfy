/**
 Kernel timers as functions on their state: sys/kern/timer.cpp.

 Each operation runs with interrupts disabled, so each is one step. The timer thread takes two: it takes an
 expired timer off its list, and with interrupts enabled again it makes the callback.
 */
module TimerSpec {
  import opened Queues

  datatype Tmr = Tmr(active: bool, expire: nat, interval: nat)

  /** `taken` is the timer whose callback the timer thread is about to make. */
  datatype State = State(
    timers: map<nat, Tmr>,
    waiting: seq<nat>,        // timer_list
    expired: seq<nat>,        // expire_list
    now: nat,                 // timer_monotonic_coarse
    taken: Option<nat>)

  function Expiry(timers: map<nat, Tmr>, t: nat): nat {
    if t in timers then timers[t].expire else 0
  }

  predicate Active(timers: map<nat, Tmr>, t: nat) {
    t in timers && timers[t].active
  }

  /** nsec == 1 stands for the next tick. */
  function Delay(nsec: nat): nat {
    if nsec == 1 then 0 else nsec
  }

  // ----- operations -----

  /** The place of timer_insert: before the first timer that expires later. */
  function Place(timers: map<nat, Tmr>, q: seq<nat>, expire: nat): (n: nat)
    ensures n <= |q|
    ensures forall i :: 0 <= i < n ==> Expiry(timers, q[i]) <= expire
    ensures n < |q| ==> expire < Expiry(timers, q[n])
  {
    if q == [] || expire < Expiry(timers, q[0]) then 0 else 1 + Place(timers, q[1..], expire)
  }

  function Inserted(timers: map<nat, Tmr>, q: seq<nat>, t: nat): seq<nat> {
    var n := Place(timers, q, Expiry(timers, t));
    q[..n] + [t] + q[n..]
  }

  function Unlink(s: State, t: nat): State {
    if Active(s.timers, t) then s.(waiting := Without(s.waiting, t), expired := Without(s.expired, t)) else s
  }

  /** timer_callout: armed, or armed again, to call back nsec from now and then every interval. */
  function Callout(s: State, period: nat, t: nat, nsec: nat, interval: nat): State {
    var timers := s.timers[t := Tmr(true, s.now + period + Delay(nsec), interval)];
    Unlink(s, t).(timers := timers, waiting := Inserted(timers, Unlink(s, t).waiting, t))
  }

  /** timer_stop */
  function Stop(s: State, t: nat): State {
    if Active(s.timers, t) then Unlink(s, t).(timers := s.timers[t := s.timers[t].(active := false)]) else s
  }

  /** Timers that are due go to the expired ones. */
  function Expire(s: State): State
    decreases |s.waiting|
  {
    if s.waiting != [] && Expiry(s.timers, s.waiting[0]) <= s.now
    then Expire(s.(waiting := s.waiting[1..], expired := [s.waiting[0]] + s.expired))
    else s
  }

  /** timer_tick at time `monotonic`. */
  function Tick(s: State, monotonic: nat): State {
    Expire(s.(now := monotonic))
  }

  /** The timer thread takes the first expired timer, and puts it back on the list if it is periodic. */
  function Take(s: State): State
    requires s.expired != [] && s.expired[0] in s.timers
  {
    var t := s.expired[0];
    var tmr := s.timers[t];
    var off := s.(expired := s.expired[1..], taken := Some(t));
    if tmr.interval != 0 then
      var timers := s.timers[t := tmr.(expire := tmr.expire + tmr.interval)];
      off.(timers := timers, waiting := Inserted(timers, s.waiting, t))
    else off.(timers := s.timers[t := tmr.(active := false)])
  }

  // ----- what they keep -----

  ghost predicate Sorted(timers: map<nat, Tmr>, q: seq<nat>) {
    forall i, j :: 0 <= i < j < |q| ==> Expiry(timers, q[i]) <= Expiry(timers, q[j])
  }

  /** Timers are active when they are on one of the lists, and no timer is on both. */
  ghost predicate Linked(s: State) {
    && Distinct(s.waiting) && Distinct(s.expired)
    && (forall t :: t in s.waiting ==> t !in s.expired)
    && (forall t :: t in s.waiting || t in s.expired <==> Active(s.timers, t))
  }

  /** The waiting timers are in the order they expire in, and the expired ones are due. */
  ghost predicate Inv(s: State) {
    && Linked(s) && Sorted(s.timers, s.waiting)
    && (forall t :: t in s.expired ==> Expiry(s.timers, t) <= s.now)
    && (s.taken.Some? ==> s.taken.value in s.timers)
  }

  /** The same with timer t off the lists, whatever it is. */
  ghost predicate InvBut(s: State, t: nat) {
    && Distinct(s.waiting) && Distinct(s.expired) && t !in s.waiting && t !in s.expired
    && (forall x :: x in s.waiting ==> x !in s.expired)
    && (forall x :: x != t ==> (x in s.waiting || x in s.expired <==> Active(s.timers, x)))
    && Sorted(s.timers, s.waiting)
    && (forall x :: x in s.expired ==> Expiry(s.timers, x) <= s.now)
    && (s.taken.Some? ==> s.taken.value in s.timers)
  }

  lemma {:induction false} WithoutSorted(timers: map<nat, Tmr>, q: seq<nat>, t: nat)
    requires Sorted(timers, q)
    ensures Sorted(timers, Without(q, t))
  {
    if q != [] {
      var w := Without(q[1..], t);
      WithoutSorted(timers, q[1..], t);
      forall i | 0 <= i < |w| ensures Expiry(timers, q[0]) <= Expiry(timers, w[i]) {
        assert w[i] in q[1..];
      }
    }
  }

  lemma UnlinkInv(s: State, t: nat)
    requires Inv(s)
    ensures InvBut(Unlink(s, t), t)
  {
    if Active(s.timers, t) {
      WithoutDistinct(s.waiting, t);
      WithoutDistinct(s.expired, t);
      WithoutSorted(s.timers, s.waiting, t);
    }
  }

  /** Timer t may be set to anything while it is off the lists. */
  lemma SetInv(s: State, t: nat, v: Tmr)
    requires InvBut(s, t)
    ensures InvBut(s.(timers := s.timers[t := v]), t)
    ensures !v.active ==> Inv(s.(timers := s.timers[t := v]))
  {
  }

  lemma InsertedMembers(q: seq<nat>, n: nat, t: nat)
    requires t !in q && Distinct(q) && n <= |q|
    ensures var r := q[..n] + [t] + q[n..]; (forall x :: x in r <==> x in q || x == t) && Distinct(r)
  {
    assert q == q[..n] + q[n..];
  }

  lemma InsertedSorted(timers: map<nat, Tmr>, q: seq<nat>, t: nat)
    requires Sorted(timers, q)
    ensures Sorted(timers, Inserted(timers, q, t))
  {
    var n, r := Place(timers, q, Expiry(timers, t)), Inserted(timers, q, t);
    hide Place, Expiry;
    forall i, j | 0 <= i < j < |r| ensures Expiry(timers, r[i]) <= Expiry(timers, r[j]) {
      if i == n {
        assert r[j] == q[j - 1] && (n < j - 1 ==> Expiry(timers, q[n]) <= Expiry(timers, q[j - 1]));
      } else if j != n {
        var i', j' := if i < n then i else i - 1, if j < n then j else j - 1;
        assert r[i] == q[i'] && r[j] == q[j'] && i' < j';
      }
    }
  }

  lemma LinkInv(s: State, t: nat)
    requires InvBut(s, t) && Active(s.timers, t)
    ensures Inv(s.(waiting := Inserted(s.timers, s.waiting, t)))
  {
    hide Sorted, Place;
    InsertedMembers(s.waiting, Place(s.timers, s.waiting, Expiry(s.timers, t)), t);
    InsertedSorted(s.timers, s.waiting, t);
  }

  lemma CalloutInv(s: State, period: nat, t: nat, nsec: nat, interval: nat)
    requires Inv(s)
    ensures Inv(Callout(s, period, t, nsec, interval))
  {
    hide Inv, InvBut, Inserted, Unlink;
    var v := Tmr(true, s.now + period + Delay(nsec), interval);
    var u := Unlink(s, t);
    UnlinkTimers(s, t);
    UnlinkInv(s, t);
    SetInv(u, t, v);
    LinkInv(u.(timers := s.timers[t := v]), t);
  }

  lemma UnlinkTimers(s: State, t: nat)
    ensures Unlink(s, t) == s.(waiting := Unlink(s, t).waiting, expired := Unlink(s, t).expired)
  {
  }

  lemma StopInv(s: State, t: nat)
    requires Inv(s)
    ensures Inv(Stop(s, t)) && !Active(Stop(s, t).timers, t)
  {
    hide Inv, InvBut, Unlink;
    if Active(s.timers, t) {
      UnlinkTimers(s, t);
      UnlinkInv(s, t);
      SetInv(Unlink(s, t), t, s.timers[t].(active := false));
    }
  }

  /** No timer that is due stays waiting; no timer changes. */
  lemma {:induction false} ExpireInv(s: State)
    requires Inv(s)
    ensures var n := Expire(s);
            && Inv(n) && n.timers == s.timers && n.now == s.now && n.taken == s.taken
            && (forall t :: t in n.waiting ==> t in s.waiting && s.now < Expiry(s.timers, t))
    decreases |s.waiting|
  {
    if s.waiting != [] {
      if Expiry(s.timers, s.waiting[0]) <= s.now {
        ExpireOne(s);
        ExpireInv(s.(waiting := s.waiting[1..], expired := [s.waiting[0]] + s.expired));
      } else {
        forall t | t in s.waiting ensures s.now < Expiry(s.timers, t) {
          var i :| 0 <= i < |s.waiting| && s.waiting[i] == t;
        }
      }
    }
  }

  lemma ExpireOne(s: State)
    requires Inv(s) && s.waiting != [] && Expiry(s.timers, s.waiting[0]) <= s.now
    ensures Inv(s.(waiting := s.waiting[1..], expired := [s.waiting[0]] + s.expired))
  {
    var t, rest := s.waiting[0], s.waiting[1..];
    assert s.waiting == [t] + rest && t in s.waiting;
    assert t !in rest && t !in s.expired;
    FrontDistinct(s.expired, t);
    assert Distinct(rest) && Sorted(s.timers, rest);
  }

  lemma FrontDistinct(q: seq<nat>, t: nat)
    requires Distinct(q) && t !in q
    ensures Distinct([t] + q)
  {
  }

  lemma TickInv(s: State, monotonic: nat)
    requires Inv(s) && s.now <= monotonic
    ensures var n := Tick(s, monotonic);
            && Inv(n) && n.timers == s.timers && n.now == monotonic && n.taken == s.taken
            && (forall t :: t in n.waiting ==> t in s.waiting && monotonic < Expiry(s.timers, t))
  {
    hide Expire;
    assert Inv(s.(now := monotonic));
    ExpireInv(s.(now := monotonic));
  }

  lemma TakeInv(s: State)
    requires Inv(s) && s.expired != []
    ensures s.expired[0] in s.timers && s.timers[s.expired[0]].active && Inv(Take(s))
    ensures s.timers[s.expired[0]].expire <= s.now
  {
    hide Inserted;
    var t := s.expired[0];
    assert t in s.expired && Active(s.timers, t);
    var tmr := s.timers[t];
    var off := s.(expired := s.expired[1..], taken := Some(t));
    assert s.expired == [t] + s.expired[1..] && t !in s.expired[1..];
    assert InvBut(off, t);
    hide Inv, InvBut;
    SetInv(off, t, tmr.(active := false));
    SetInv(off, t, tmr.(expire := tmr.expire + tmr.interval));
    LinkInv(off.(timers := s.timers[t := tmr.(expire := tmr.expire + tmr.interval)]), t);
  }
}
