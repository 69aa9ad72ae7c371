/**
 A run of the cron protocol that loses an occurrence: the instance that won the claim stops before its
 pass runs, so the row is stamped and nothing was read. `CronOutages.LostBetweenPasses` says exactly which
 instants such a claim costs; this is one of them.
 */
module CronLoss {
  import opened Options
  import opened CronPass
  import opened CronRun
  import Timers = ClaimTimer

  /** The longest interval the configuration allows, on a deployment with no latency at all. */
  const Instant45 := Config(45, 0, 0, 0, 0)

  /** A schedule that catches up, with one occurrence ten seconds in. */
  const Lone := Schedule("report", "", Rule(t => t == 10000), Once, None)

  ghost predicate Ran(s: State)
  {
    exists n: nat :: Reachable(Instant45, [Lone], s, n)
  }

  lemma StepTo(s: State, step: Step, s': State)
    requires Ran(s) && Leads(Instant45, [Lone], s, step, s')
    ensures Ran(s')
  {
    var n: nat :| Reachable(Instant45, [Lone], s, n);
    assert Reachable(Instant45, [Lone], s', n + 1);
  }

  lemma NothingOwed(lastPass: Option<int>, now: int)
    requires now < 10000 || (10000 <= now - WINDOW && lastPass.Some? && lastPass.value >= 10000)
    ensures forall job :: !Files([Lone], lastPass, now, job)
  {
    forall job ensures !Files([Lone], lastPass, now, job) {
      if i, t :| FilesFor([Lone], lastPass, now, job, i, t) {
        OwesOnlyOccurrences(Lone, lastPass, now, t);
      }
    }
  }

  function Waiting(due: int): Instance
  {
    Instance(Timers.Timer(Some(due), due, false, true), NoAttempt, NoPass, true)
  }

  function Working(due: int, pass: Pass): Instance
  {
    Waiting(due).(pass := pass)
  }

  const Joined := Instance(Timers.Timer(Some(45000), 45000, false, false), Sent(0), NoPass, false)
  const JoinedLater := Instance(Timers.Timer(Some(90000), 90000, false, false), Sent(45000), NoPass, false)
  const Gone := Instance(Timers.Timer(None, 45000, true, false), NoAttempt, NoPass, true)

  function Attempting(due: int, attempt: Attempt): Instance
  {
    Instance(Timers.Timer(None, due, false, false), attempt, NoPass, true)
  }

  const First := Claim(0, None, false, Filed(0))
  const Second := Claim(45000, Some(0), true, Abandoned)
  const Third := Claim(91000, Some(45000), true, Filed(91000))

  const AfterFirst := State(0, Some(0), map[1 := Waiting(45000)], [First], [])

  const ClaimedFirst := State(0, Some(0), map[1 := Joined.(attempt := Won(0, 0), settled := true)],
      [First.(fate := Pending)], [])

  /** One instance joins and wins the first claim, at 0. */
  lemma FirstClaim()
    ensures Ran(ClaimedFirst)
  {
    var s0 := Init(0);
    var s1 := s0.(instances := map[1 := Joined]);
    assert Reachable(Instant45, [Lone], s0, 0);
    assert Leads(Instant45, [Lone], s0, Join(1), s1);
    StepTo(s0, Join(1), s1);
    assert !Attended(s1);
    assert Leads(Instant45, [Lone], s1, Statement(1), ClaimedFirst);
    StepTo(s1, Statement(1), ClaimedFirst);
  }

  /** And files its pass. */
  lemma FirstPass()
    ensures Ran(AfterFirst)
  {
    FirstClaim();
    var s3 := ClaimedFirst.(instances := map[1 := Working(45000, Reading(0, 0, 0))]);
    var s4 := ClaimedFirst.(instances := map[1 := Working(45000, Filing(0, 0, 0))]);
    StepTo(ClaimedFirst, Answer(1), s3);
    StepTo(s3, Read(1), s4);
    NothingOwed(None, 0);
    StepTo(s4, File(1, []), AfterFirst);
  }

  function BothAt45(one: Instance, two: Instance, log: seq<Claim>): State
  {
    State(45000, if |log| == 1 then Some(0) else Some(45000), map[1 := one, 2 := two], log, [])
  }

  /** At 45 s it is due again, and a second instance joins. */
  lemma SecondJoins()
    ensures Ran(BothAt45(Attempting(45000, Sent(45000)), JoinedLater, [First]))
  {
    FirstPass();
    var s1 := AfterFirst.(now := 45000);
    var s2 := s1.(instances := map[1 := Attempting(45000, Sent(45000))]);
    StepTo(AfterFirst, Tick(45000), s1);
    StepTo(s1, Fire(1), s2);
    StepTo(s2, Join(2), BothAt45(Attempting(45000, Sent(45000)), JoinedLater, [First]));
  }

  const AfterSecond := BothAt45(Gone, Waiting(91000), [First, Second])

  const SecondPending := [First, Second.(fate := Pending)]
  const Winner := Attempting(45000, Won(1, 45000))
  const Loser := JoinedLater.(attempt := Refused(45000, 0, 45000), settled := true)

  const BothSent := BothAt45(Attempting(45000, Sent(45000)), JoinedLater, [First])

  /** The first wins. */
  lemma WinnerClaims()
    ensures Ran(BothAt45(Winner, JoinedLater, SecondPending))
  {
    SecondJoins();
    assert BothSent.instances[1].settled && !BothSent.instances[1].timer.stopped && Attended(BothSent);
    StepTo(BothSent, Statement(1), BothAt45(Winner, JoinedLater, SecondPending));
  }

  /** And the second is refused. */
  lemma SecondClaim()
    ensures Ran(BothAt45(Winner, Loser, SecondPending))
  {
    WinnerClaims();
    StepTo(BothAt45(Winner, JoinedLater, SecondPending), Statement(2), BothAt45(Winner, Loser, SecondPending));
  }

  const Stopped := BothAt45(Winner.(timer := Timers.Stop(Winner.timer)), Loser, SecondPending)

  /** The winner stops before its answer arrives. */
  lemma WinnerStops()
    ensures Ran(Stopped)
  {
    SecondClaim();
    StepTo(BothAt45(Winner, Loser, SecondPending), Leave(1), Stopped);
  }

  /** So its claim is abandoned, and the other one waits for the row. */
  lemma ClaimAbandoned()
    ensures Ran(AfterSecond)
  {
    WinnerStops();
    var s7 := BothAt45(Gone, Loser, [First, Second]);
    assert Settle(Stopped, 1, Abandoned).log == [First, Second];
    StepTo(Stopped, Answer(1), s7);
    StepTo(s7, Answer(2), AfterSecond);
  }

  function At91(two: Instance, log: seq<Claim>): State
  {
    State(91000, if |log| == 2 then Some(45000) else Some(91000), map[1 := Gone, 2 := two], log, [])
  }

  const ThirdPending := [First, Second, Third.(fate := Pending)]
  const AfterThird := At91(Waiting(136000), [First, Second, Third])

  const WokenThird := At91(Attempting(91000, Sent(91000)), [First, Second])

  /** The other instance tries on time, 46 s later. */
  lemma ThirdAttempt()
    ensures Ran(WokenThird)
  {
    ClaimAbandoned();
    var s1 := At91(Waiting(91000), [First, Second]);
    StepTo(AfterSecond, Tick(91000), s1);
    StepTo(s1, Fire(2), WokenThird);
  }

  /** It wins. */
  lemma ThirdClaim()
    ensures Ran(At91(Attempting(91000, Won(2, 91000)), ThirdPending))
  {
    ThirdAttempt();
    assert WokenThird.instances[2].settled && !WokenThird.instances[2].timer.stopped && Attended(WokenThird);
    StepTo(WokenThird, Statement(2), At91(Attempting(91000, Won(2, 91000)), ThirdPending));
  }

  /** And reads too late. */
  lemma ThirdPass()
    ensures Ran(AfterThird)
  {
    ThirdClaim();
    var s3 := At91(Attempting(91000, Won(2, 91000)), ThirdPending);
    var s4 := At91(Working(136000, Reading(2, 91000, 91000)), ThirdPending);
    var s5 := At91(Working(136000, Filing(2, 91000, 91000)), ThirdPending);
    StepTo(s3, Answer(2), s4);
    StepTo(s4, Read(2), s5);
    NothingOwed(Some(45000), 91000);
    assert Settle(s5, 2, Filed(91000)).log == [First, Second, Third];
    StepTo(s5, File(2, []), AfterThird);
  }

  /**
   Spacing held throughout, an instance was always alive, the schedule catches up, and its occurrence
   has no job.
   */
  lemma AbandonedClaimLosesOccurrence() returns (s: State, n: nat)
    ensures Instant45.Valid() && Instant45.WindowsMeet() && Reachable(Instant45, [Lone], s, n)
    ensures |s.log| == 3 && s.log[1].attended && s.log[2].attended
    ensures s.log[0].fate == Filed(0) && s.log[1].fate == Abandoned && s.log[2].fate == Filed(91000)
    ensures Occurs(Lone.expression, 10000) && Lone.missed == Once
    ensures !Stored(s.jobs, Forwarded(KeyOf(Lone), Slot(10000)))
  {
    ThirdPass();
    s := AfterThird;
    n :| Reachable(Instant45, [Lone], s, n);
  }
}
