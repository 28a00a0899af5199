/** The code of the kernel timers: its lists, and the loops over them. */
module Timer {
  import opened Queues
  import opened TimerSpec

  class TimerQueue {
    const period: nat           // nanoseconds between ticks
    var timers: map<nat, Tmr>
    var waiting: seq<nat>
    var expired: seq<nat>
    var now: nat
    var taken: Option<nat>

    ghost function St(): State
      reads this
    {
      State(timers, waiting, expired, now, taken)
    }

    constructor (period: nat)
      ensures this.period == period && St() == State(map[], [], [], 0, None) && Inv(St())
    {
      this.period := period;
      timers, waiting, expired, now, taken := map[], [], [], 0, None;
    }

    /** timer_insert */
    method Insert(t: nat)
      requires t in timers && forall x :: x in waiting ==> x in timers
      modifies this`waiting
      ensures waiting == Inserted(timers, old(waiting), t)
    {
      var n := 0;
      while n < |waiting| && timers[waiting[n]].expire <= timers[t].expire
        invariant n <= |waiting|
        invariant Place(timers, waiting, timers[t].expire) == n + Place(timers, waiting[n..], timers[t].expire)
      {
        assert waiting[n..][1..] == waiting[n + 1..];
        n := n + 1;
      }
      waiting := waiting[..n] + [t] + waiting[n..];
    }

    method Callout(t: nat, nsec: nat, interval: nat)
      requires Inv(St())
      modifies this`timers, this`waiting, this`expired
      ensures Inv(St()) && St() == TimerSpec.Callout(old(St()), period, t, nsec, interval)
    {
      hide Inserted, Sorted;
      CalloutInv(St(), period, t, nsec, interval);
      if t in timers && timers[t].active {
        waiting, expired := Without(waiting, t), Without(expired, t);
      }
      timers := timers[t := Tmr(true, now + period + (if nsec == 1 then 0 else nsec), interval)];
      Insert(t);
    }

    method Stop(t: nat)
      requires Inv(St())
      modifies this`timers, this`waiting, this`expired
      ensures Inv(St()) && St() == TimerSpec.Stop(old(St()), t) && !Active(timers, t)
    {
      StopInv(St(), t);
      if t in timers && timers[t].active {
        waiting, expired := Without(waiting, t), Without(expired, t);
        timers := timers[t := timers[t].(active := false)];
      }
    }

    method Tick(monotonic: nat)
      requires Inv(St()) && now <= monotonic
      modifies this`waiting, this`expired, this`now
      ensures Inv(St()) && St() == TimerSpec.Tick(old(St()), monotonic)
      ensures forall t :: t in waiting ==> now < Expiry(timers, t)
    {
      TickInv(St(), monotonic);
      now := monotonic;
      while waiting != [] && timers[waiting[0]].expire <= now
        invariant Inv(St()) && now == monotonic && Expire(St()) == TimerSpec.Tick(old(St()), monotonic)
        decreases |waiting|
      {
        ExpireOne(St());
        expired := [waiting[0]] + expired;
        waiting := waiting[1..];
      }
    }

    /** One turn of the loop of the timer thread, up to where it enables interrupts. */
    method Take()
      requires Inv(St()) && taken == None && expired != []
      modifies this`timers, this`waiting, this`expired, this`taken
      ensures old(expired[0] in timers) && Inv(St()) && St() == TimerSpec.Take(old(St()))
      ensures old(timers[expired[0]].expire) <= now
    {
      hide Inserted, Sorted;
      TakeInv(St());
      var t := expired[0];
      expired := expired[1..];
      if timers[t].interval != 0 {
        // periodic timer
        timers := timers[t := timers[t].(expire := timers[t].expire + timers[t].interval)];
        Insert(t);
      } else {
        // one-shot timer
        timers := timers[t := timers[t].(active := false)];
      }
      taken := Some(t);
    }

    /** The rest of the turn: the callback is that of the timer as it is by now. */
    method Call() returns (t: nat, tmr: Tmr)
      requires Inv(St()) && taken.Some?
      modifies this`taken
      ensures Inv(St()) && St() == old(St()).(taken := None) && Some(t) == old(taken) && t in timers && tmr == timers[t]
    {
      t := taken.value;
      tmr := timers[t];
      taken := None;
    }
  }
}
