/**
 The timer behind an interval claim (src/claimTimer.ts): a chain of single timeouts, each anchored
 to the claim before it. Times are integer milliseconds on one clock.
 */
module ClaimTimer {
  import opened Options

  /**
   `wake` is when the clock's timeout goes off, if one is set; `due` is when the attempt it is for may
   run. The clock may go off early, so the two can differ.
   */
  datatype Timer = Timer(wake: Option<int>, due: int, stopped: bool, anchored: bool)

  const Fresh := Timer(None, 0, true, false)

  function Arm(t: Timer, now: int, wait: int): Timer
  {
    if t.stopped then t.(wake := None) else t.(wake := Some(now + wait), due := now + wait)
  }

  function Start(t: Timer, now: int, period: int): Timer
  {
    if t.stopped then Arm(t.(stopped := false), now, period) else t
  }

  function Stop(t: Timer): Timer
  {
    t.(stopped := true, wake := None)
  }

  function Anchor(t: Timer, now: int, wait: int): Timer
  {
    if t.stopped then t else Arm(t.(anchored := true), now, wait)
  }

  /** The clock's timeout went off: wait out what is left, or run the pass. */
  predicate Runs(t: Timer, now: int)
  {
    t.due <= now
  }

  function TimeoutFired(t: Timer, now: int): Timer
  {
    if Runs(t, now) then t.(wake := None, anchored := false) else t.(wake := Some(t.due))
  }

  function RunEnded(t: Timer, now: int, period: int): Timer
  {
    if t.anchored then t else Arm(t, now, period)
  }

  /** The chain is alive: stopped, waiting for the clock, or in the middle of a run that will re-arm it. */
  ghost predicate ChainAlive(t: Timer, running: nat)
  {
    t.stopped || t.wake.Some? || running > 0
  }

  class Chain {
    const period: int
    var timer: Timer
    ghost var running: nat

    ghost predicate Valid()
      reads this
    {
      && ChainAlive(timer, running)
      && (timer.stopped ==> timer.wake == None)
      && (!timer.stopped && timer.anchored ==> timer.wake.Some?)
    }

    constructor (seconds: int)
      ensures Valid() && period == seconds * 1000 && timer == Fresh && running == 0
    {
      period := seconds * 1000;
      timer := Fresh;
      running := 0;
    }

    method Begin(now: int)
      requires Valid()
      modifies this
      ensures Valid() && timer == Start(old(timer), now, period) && running == old(running)
      ensures !timer.stopped
      ensures if old(timer).stopped then timer.wake == Some(now + period) && timer.due == now + period
          else timer == old(timer)
    {
      if !timer.stopped {
        return;
      }
      timer := timer.(stopped := false);
      ArmIn(now, period);
    }

    method End()
      requires Valid()
      modifies this
      ensures Valid() && timer == Stop(old(timer)) && running == old(running)
      ensures timer.stopped && timer.wake == None
    {
      timer := timer.(stopped := true);
      Disarm();
    }

    method AnchorIn(now: int, wait: int)
      requires Valid()
      modifies this
      ensures Valid() && timer == Anchor(old(timer), now, wait) && running == old(running)
      ensures if old(timer).stopped then timer == old(timer)
          else timer.wake == Some(now + wait) && timer.due == now + wait && timer.anchored
    {
      if timer.stopped {
        return;
      }
      timer := timer.(anchored := true);
      ArmIn(now, wait);
    }

    /** Answers whether the pass runs now, which it never does before it is due. */
    method OnTimeout(now: int) returns (runs: bool)
      requires Valid() && timer.wake.Some?
      modifies this
      ensures Valid() && timer == TimeoutFired(old(timer), now)
      ensures runs <==> old(timer).due <= now
      ensures running == if runs then old(running) + 1 else old(running)
      ensures if runs then timer.wake == None && !timer.anchored
          else timer.wake == Some(old(timer).due) && timer.due == old(timer).due
    {
      var remaining := timer.due - now;
      if remaining > 0 {
        timer := timer.(wake := Some(now + remaining));
        return false;
      }
      timer := timer.(wake := None, anchored := false);
      running := running + 1;
      return true;
    }

    method OnRunEnd(now: int)
      requires Valid() && running > 0
      modifies this
      ensures Valid() && timer == RunEnded(old(timer), now, period) && running == old(running) - 1
      ensures old(timer).anchored ==> timer == old(timer)
      ensures !old(timer).anchored && !timer.stopped ==> timer.wake == Some(now + period) && timer.due == now + period
    {
      running := running - 1;
      if !timer.anchored {
        ArmIn(now, period);
      }
    }

    method ArmIn(now: int, wait: int)
      modifies this
      ensures timer == Arm(old(timer), now, wait) && running == old(running)
    {
      Disarm();
      if timer.stopped {
        return;
      }
      timer := timer.(wake := Some(now + wait), due := now + wait);
    }

    method Disarm()
      modifies this
      ensures timer == old(timer).(wake := None) && running == old(running)
    {
      if timer.wake.Some? {
        timer := timer.(wake := None);
      }
    }
  }
}
