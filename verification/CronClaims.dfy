/**
 What every run of the cron protocol keeps of its claims: how far apart they are, that no two passes ever
 run at once, that no claim is left undecided, and that no deadline stops time for good.
 */
module CronClaims {
  import opened Options
  import opened CronPass
  import opened CronRun
  import opened Runs
  import Sets

  // ---- Spacing ---------------------------------------------------------------------------------

  /**
   Claim spacing, over any run: a stamp is an interval or more after the one it replaced, and as long
   as an instance that has reached the row was alive to make it, no more than the spacing after.
   Which instance held the claim before, and whether it still runs, does not come into it.
   */
  lemma ClaimSpacing(c: Config, schedules: seq<Schedule>, s: State, n: nat, k: nat)
    requires c.Valid() && Reachable(c, schedules, s, n) && 0 < k < |s.log|
    ensures s.log[k].prior == Some(s.log[k - 1].at)
    ensures s.log[k - 1].at + c.Interval() <= s.log[k].at
    ensures s.log[k].attended ==> s.log[k].at <= s.log[k - 1].at + c.Interval() + c.Beat() + c.dispatch + c.reply
  {
    ReachableInv(c, schedules, s, n);
    assert ClaimOk(c, s.now, s.log, k);
  }

  /** Nor is the row ever older than that while such an instance is alive, stamped again or not. */
  lemma RowNeverStale(c: Config, schedules: seq<Schedule>, s: State, n: nat)
    requires c.Valid() && Reachable(c, schedules, s, n) && Attended(s)
    ensures s.row.Some? && s.now <= s.row.value + c.Spacing()
  {
    ReachableInv(c, schedules, s, n);
    var i :| i in s.instances && !s.instances[i].timer.stopped && s.instances[i].settled;
    SettledBound(c, s.now, s.row, s.log, s.instances[i]);
  }

  /** A timer never fires into a pass of its own instance, so no attempt is skipped. */
  lemma NoAttemptSkipped(c: Config, schedules: seq<Schedule>, s: State, n: nat, i: int)
    requires c.Valid() && Reachable(c, schedules, s, n) && Enabled(c, schedules, s, Fire(i))
    ensures Apply(c, schedules, s, Fire(i)).instances[i].attempt.Sent?
  {
    ReachableInv(c, schedules, s, n);
    FireInv(c, schedules, s, i);
    assert InstanceOk(c, s.now, s.row, s.log, s.instances[i]);
  }

  // ---- When an instance tries again ------------------------------------------------------------

  /** A quarter of the interval, but no more than a second. */
  lemma BeatBounds(c: Config)
    requires c.Valid()
    ensures 0 < c.Beat() <= 1000 && 4 * c.Beat() <= c.Interval()
    ensures c.Beat() == 1000 || 4 * c.Beat() == c.Interval()
  {
  }

  /** Claim `k` was the newest when a statement ran at `at`. */
  ghost predicate NewestAt(log: seq<Claim>, k: nat, at: int)
  {
    k < |log| && log[k].at <= at && (k + 1 < |log| ==> at <= log[k + 1].at)
  }

  /** A refused instance was told the age of the newest stamp, which was less than an interval old. */
  ghost predicate ToldAge(c: Config, log: seq<Claim>, inst: Instance)
  {
    inst.attempt.Refused? ==>
      0 <= inst.attempt.elapsed < c.Interval()
      && exists k: nat :: NewestAt(log, k, inst.attempt.at) && log[k].at == inst.attempt.at - inst.attempt.elapsed
  }

  lemma ToldAgeStays(c: Config, log: seq<Claim>, log': seq<Claim>, inst: Instance)
    requires ToldAge(c, log, inst) && |log| <= |log'| && forall k | 0 <= k < |log| :: log'[k].at == log[k].at
    requires inst.attempt.Refused? ==> forall k | |log| <= k < |log'| :: inst.attempt.at <= log'[k].at
    ensures ToldAge(c, log', inst)
  {
    if inst.attempt.Refused? {
      var k: nat :| NewestAt(log, k, inst.attempt.at) && log[k].at == inst.attempt.at - inst.attempt.elapsed;
      assert NewestAt(log', k, inst.attempt.at);
    }
  }

  lemma RefusedToldAge(c: Config, schedules: seq<Schedule>, s: State, i: int)
    requires c.Valid() && Inv(c, schedules, s) && Enabled(c, schedules, s, Statement(i)) && !Claimable(c, s)
    ensures var s' := Apply(c, schedules, s, Statement(i)); ToldAge(c, s'.log, s'.instances[i])
  {
    var k: nat := |s.log| - 1;
    assert ClaimOk(c, s.now, s.log, k);
    assert NewestAt(s.log, k, s.now) && s.log[k].at == s.now - (s.now - s.row.value);
  }

  /** No step changes a stamp, and a new one is made now. */
  lemma StampsStay(c: Config, schedules: seq<Schedule>, s: State, step: Step)
    requires Enabled(c, schedules, s, step)
    ensures var log := Apply(c, schedules, s, step).log;
      && |s.log| <= |log| && (forall k | 0 <= k < |s.log| :: log[k].at == s.log[k].at)
      && forall k | |s.log| <= k < |log| :: log[k].at == s.now
  {
  }

  lemma LeadsToldAge(c: Config, schedules: seq<Schedule>, s: State, step: Step, i: int)
    requires c.Valid() && Inv(c, schedules, s) && Enabled(c, schedules, s, step)
    requires forall j | j in s.instances :: ToldAge(c, s.log, s.instances[j])
    requires i in Apply(c, schedules, s, step).instances
    ensures ToldAge(c, Apply(c, schedules, s, step).log, Apply(c, schedules, s, step).instances[i])
  {
    var s' := Apply(c, schedules, s, step);
    if step == Statement(i) {
      if !Claimable(c, s) {
        RefusedToldAge(c, schedules, s, i);
      }
    } else if s'.instances[i].attempt.Refused? {
      assert i in s.instances && s'.instances[i].attempt == s.instances[i].attempt;
      assert InstanceOk(c, s.now, s.row, s.log, s.instances[i]);
      StampsStay(c, schedules, s, step);
      ToldAgeStays(c, s.log, s'.log, s.instances[i]);
    }
  }

  lemma {:induction false} ReachableToldAge(c: Config, schedules: seq<Schedule>, s: State, n: nat)
    requires c.Valid() && Reachable(c, schedules, s, n)
    ensures forall i | i in s.instances :: ToldAge(c, s.log, s.instances[i])
    decreases n
  {
    if n > 0 {
      var p, step :| Reachable(c, schedules, p, n - 1) && Leads(c, schedules, p, step, s);
      ReachableToldAge(c, schedules, p, n - 1);
      ReachableInv(c, schedules, p, n - 1);
      forall i | i in s.instances ensures ToldAge(c, s.log, s.instances[i]) {
        LeadsToldAge(c, schedules, p, step, i);
      }
    }
  }

  /**
   Over any run, a running instance that was refused tries again when the row it was refused on is an interval
   and a beat old, put off by no more than its answer took. If nobody has stamped the row by then, that attempt
   wins; and it is never made before.
   */
  lemma RefusedRetries(c: Config, schedules: seq<Schedule>, s: State, n: nat, i: int) returns (stamp: int)
    requires c.Valid() && Reachable(c, schedules, s, n)
    requires i in s.instances && s.instances[i].attempt.Refused? && !s.instances[i].timer.stopped
    ensures exists k: nat :: NewestAt(s.log, k, s.instances[i].attempt.at) && s.log[k].at == stamp
    ensures Enabled(c, schedules, s, Answer(i))
    ensures var wake := Apply(c, schedules, s, Answer(i)).instances[i].timer.wake;
      && wake == Some(stamp + c.Interval() + c.Beat() + (s.now - s.instances[i].attempt.at))
      && s.instances[i].attempt.at <= s.now <= s.instances[i].attempt.at + c.reply
      && forall later: State | later.row == Some(stamp) && later.now >= wake.value :: Claimable(c, later)
  {
    ReachableInv(c, schedules, s, n);
    ReachableToldAge(c, schedules, s, n);
    var inst := s.instances[i];
    assert InstanceOk(c, s.now, s.row, s.log, inst) && ToldAge(c, s.log, inst);
    stamp := inst.attempt.at - inst.attempt.elapsed;
    BeatBounds(c);
  }

  /** And one that won tries again an interval after its answer. */
  lemma WinnerRetries(c: Config, schedules: seq<Schedule>, s: State, n: nat, i: int)
    requires c.Valid() && Reachable(c, schedules, s, n)
    requires i in s.instances && s.instances[i].attempt.Won? && !s.instances[i].timer.stopped
    ensures Enabled(c, schedules, s, Answer(i)) && s.instances[i].attempt.claim < |s.log|
    ensures Apply(c, schedules, s, Answer(i)).instances[i].timer.wake == Some(s.now + c.Interval())
    ensures s.log[s.instances[i].attempt.claim].at <= s.now <= s.log[s.instances[i].attempt.claim].at + c.reply
  {
    ReachableInv(c, schedules, s, n);
    assert InstanceOk(c, s.now, s.row, s.log, s.instances[i]);
    assert ClaimOk(c, s.now, s.log, s.instances[i].attempt.claim);
  }

  /** A pass that ends on a running instance has filed its jobs; on one that was stopped, it has filed none. */
  lemma FilesUnlessStopped(c: Config, schedules: seq<Schedule>, s: State, n: nat, i: int, scheduled: seq<Forwarded>)
    requires c.Valid() && Reachable(c, schedules, s, n) && Enabled(c, schedules, s, File(i, scheduled))
    ensures var s' := Apply(c, schedules, s, File(i, scheduled)); var k := s.instances[i].pass.claim;
      && s'.instances[i].pass == NoPass && |s'.log| == |s.log|
      && (s.instances[i].timer.stopped ==> s'.jobs == s.jobs && s'.log[k].fate == Abandoned)
      && (!s.instances[i].timer.stopped ==> s.jobs <= s'.jobs && s'.log[k].fate == Filed(s.instances[i].pass.at))
      && (!s.instances[i].timer.stopped ==> forall job | job in scheduled :: Occupied(s'.jobs, job))
      && forall job :: job in scheduled <==> Files(schedules, s.log[k].prior, s.instances[i].pass.at, job)
  {
    InsertAllAdds(s.jobs, scheduled);
  }

  /** Cancelling a job frees its place, and resuming it, while nobody has taken that, undoes the cancelling. */
  lemma CancelFreesPlace(c: Config, schedules: seq<Schedule>, s: State, n: nat, j: nat)
    requires c.Valid() && Reachable(c, schedules, s, n) && j < |s.jobs| && !s.jobs[j].cancelled
    ensures Enabled(c, schedules, s, Cancel(j))
    ensures var after := Apply(c, schedules, s, Cancel(j));
      && !Occupied(after.jobs, Forwarded(s.jobs[j].key, s.jobs[j].slot))
      && Enabled(c, schedules, after, Resume(j)) && Apply(c, schedules, after, Resume(j)) == s
  {
    ReachableInv(c, schedules, s, n);
    var after := Apply(c, schedules, s, Cancel(j));
    PlaceFreed(s.jobs, j);
    assert after.jobs[j := after.jobs[j].(cancelled := false)] == s.jobs;
  }

  lemma PlaceFreed(jobs: seq<StoredJob>, j: nat)
    requires UniqueSlots(jobs) && j < |jobs| && !jobs[j].cancelled
    ensures !Occupied(jobs[j := jobs[j].(cancelled := true)], Forwarded(jobs[j].key, jobs[j].slot))
  {
    var after, row := jobs[j := jobs[j].(cancelled := true)], StoredJob(jobs[j].key, jobs[j].slot, false);
    forall i | 0 <= i < |after| ensures after[i] != row {
      if i < j {
        assert jobs[i].cancelled || jobs[i].key != jobs[j].key || jobs[i].slot != jobs[j].slot;
      } else if j < i {
        assert jobs[i].cancelled || jobs[j].key != jobs[i].key || jobs[j].slot != jobs[i].slot;
      }
    }
  }

  // ---- One pass at a time ----------------------------------------------------------------------

  /** A claim that is held is the newest: its holder is done with it well before the next can be made. */
  lemma HeldIsNewest(c: Config, now: int, row: Option<int>, log: seq<Claim>, inst: Instance)
    requires c.Valid() && LogOk(c, now, row, log) && InstanceOk(c, now, row, log, inst) && inst.Held().Some?
    ensures |log| > 0 && inst.Held() == Some(|log| - 1)
  {
    var k := inst.Held().value;
    assert now <= log[k].at + c.reply + c.pass;
    assert k < |log| - 1 ==> ClaimOk(c, now, log, k + 1);
  }

  lemma HoldersMeet(c: Config, now: int, row: Option<int>, log: seq<Claim>, a: Instance, b: Instance)
    requires c.Valid() && LogOk(c, now, row, log) && InstanceOk(c, now, row, log, a) && InstanceOk(c, now, row, log, b)
    requires a.Held().Some? && b.Held().Some?
    ensures a.Held() == b.Held()
  {
    HeldIsNewest(c, now, row, log, a);
    HeldIsNewest(c, now, row, log, b);
  }

  /** Over any run, no two instances ever run a pass, or have won one, at the same time. */
  lemma OnePassAtATime(c: Config, schedules: seq<Schedule>, s: State, n: nat, i: int, j: int)
    requires c.Valid() && Reachable(c, schedules, s, n) && i in s.instances && j in s.instances && i != j
    ensures s.instances[i].pass != NoPass || s.instances[i].attempt.Won? ==>
        s.instances[j].pass == NoPass && !s.instances[j].attempt.Won?
  {
    ReachableInv(c, schedules, s, n);
    var a, b := s.instances[i], s.instances[j];
    if a.Held().Some? && b.Held().Some? {
      HoldersMeet(c, s.now, s.row, s.log, a, b);
    }
  }

  /** Whoever has not settled its claim yet still holds it. */
  ghost predicate PendingHeld(s: State)
  {
    forall k {:trigger HeldBySome(s.instances, k)} | 0 <= k < |s.log| && s.log[k].fate.Pending? ::
      HeldBySome(s.instances, k)
  }

  ghost predicate HeldBySome(instances: map<int, Instance>, k: nat)
  {
    exists i :: i in instances && instances[i].Held() == Some(k)
  }

  lemma HeldStays(instances: map<int, Instance>, i: int, inst: Instance, k: nat)
    requires HeldBySome(instances, k)
    requires i in instances ==> instances[i].Held() == Some(k) ==> inst.Held() == Some(k)
    ensures HeldBySome(instances[i := inst], k)
  {
    var j :| j in instances && instances[j].Held() == Some(k);
    assert j in instances[i := inst] && instances[i := inst][j].Held() == Some(k);
  }

  lemma LeadsHeld(c: Config, schedules: seq<Schedule>, s: State, step: Step, k: nat)
    requires c.Valid() && Inv(c, schedules, s) && PendingHeld(s) && Enabled(c, schedules, s, step)
    requires k < |Apply(c, schedules, s, step).log| && Apply(c, schedules, s, step).log[k].fate.Pending?
    ensures HeldBySome(Apply(c, schedules, s, step).instances, k)
  {
    var s' := Apply(c, schedules, s, step);
    if k == |s.log| {
      assert s'.instances[step.i].Held() == Some(k);
    } else {
      assert s.log[k].fate.Pending? && HeldBySome(s.instances, k);
      if step.Join? || step.Leave? || step.Fire? || step.Statement? || step.Answer? || step.Read? || step.File? {
        assert step.i in s.instances ==> InstanceOk(c, s.now, s.row, s.log, s.instances[step.i]);
        HeldStays(s.instances, step.i, s'.instances[step.i], k);
      }
    }
  }

  lemma {:induction false} ReachableHeld(c: Config, schedules: seq<Schedule>, s: State, n: nat)
    requires c.Valid() && Reachable(c, schedules, s, n)
    ensures PendingHeld(s)
    decreases n
  {
    if n > 0 {
      var p, step :| Reachable(c, schedules, p, n - 1) && Leads(c, schedules, p, step, s);
      ReachableHeld(c, schedules, p, n - 1);
      ReachableInv(c, schedules, p, n - 1);
      forall k | 0 <= k < |s.log| && s.log[k].fate.Pending? ensures HeldBySome(s.instances, k) {
        LeadsHeld(c, schedules, p, step, k);
      }
    }
  }

  /** So over any run, every claim but the newest has been filed or abandoned. */
  lemma EarlierClaimsSettled(c: Config, schedules: seq<Schedule>, s: State, n: nat, k: nat)
    requires c.Valid() && Reachable(c, schedules, s, n) && k + 1 < |s.log|
    ensures s.log[k].fate.Filed? || s.log[k].fate == Abandoned
  {
    ReachableInv(c, schedules, s, n);
    ReachableHeld(c, schedules, s, n);
    if s.log[k].fate.Pending? {
      assert HeldBySome(s.instances, k);
      var i :| i in s.instances && s.instances[i].Held() == Some(k);
      HeldIsNewest(c, s.now, s.row, s.log, s.instances[i]);
    }
  }

  // ---- Time goes on ----------------------------------------------------------------------------

  /** A step of the protocol by instance `i`, other than joining and leaving. */
  predicate IsOf(step: Step, i: int)
  {
    match step
    case Fire(j) => i == j
    case Statement(j) => i == j
    case Answer(j) => i == j
    case Read(j) => i == j
    case File(j, _) => i == j
    case _ => false
  }

  /** How many steps an instance may still take before it waits for the clock. */
  function StepsLeft(now: int, inst: Instance): nat
  {
    if inst.attempt.Sent? then 4
    else if inst.attempt != NoAttempt then 3
    else if inst.pass.Reading? then 2
    else if inst.pass.Filing? then 1
    else if inst.timer.wake.Some? && inst.timer.wake.value <= now then 5
    else 0
  }

  /** The other instances stay as they are, this one keeps running or stays stopped, and has less to do. */
  ghost predicate Advances(s: State, s': State, i: int)
    requires i in s.instances
  {
    && s'.now == s.now && s'.instances.Keys == s.instances.Keys
    && (forall j | j in s.instances && j != i :: s'.instances[j] == s.instances[j])
    && s'.instances[i].timer.stopped == s.instances[i].timer.stopped
    && StepsLeft(s.now, s'.instances[i]) < StepsLeft(s.now, s.instances[i])
  }

  lemma LateCanAct(c: Config, schedules: seq<Schedule>, s: State, i: int) returns (step: Step)
    requires c.Valid() && Inv(c, schedules, s)
    requires i in s.instances && !WithinDeadlines(c, s.instances[i], s.now + 1)
    ensures IsOf(step, i) && Enabled(c, schedules, s, step) && Advances(s, Apply(c, schedules, s, step), i)
  {
    var inst := s.instances[i];
    assert InstanceOk(c, s.now, s.row, s.log, inst);
    if inst.attempt.Sent? {
      step := Statement(i);
    } else if inst.attempt != NoAttempt {
      step := Answer(i);
      assert inst.attempt.Won? ==> ClaimOk(c, s.now, s.log, inst.attempt.claim);
    } else if inst.pass.Reading? {
      step := Read(i);
    } else if inst.pass.Filing? {
      var scheduled := ScheduledExists(schedules, s.log[inst.pass.claim].prior, inst.pass.at);
      step := File(i, scheduled);
    } else {
      step := Fire(i);
    }
  }

  /** An instance that holds up the clock has a step of its own to take, and taking it leaves it fewer. */
  lemma DeadlineCanBeMet(c: Config, schedules: seq<Schedule>, s: State, n: nat, i: int) returns (step: Step)
    requires c.Valid() && Reachable(c, schedules, s, n)
    requires i in s.instances && !WithinDeadlines(c, s.instances[i], s.now + 1)
    ensures IsOf(step, i) && Enabled(c, schedules, s, step) && Advances(s, Apply(c, schedules, s, step), i)
  {
    ReachableInv(c, schedules, s, n);
    step := LateCanAct(c, schedules, s, i);
  }

  /** All the steps the instances may still take before they wait for the clock. */
  function AllStepsLeft(s: State): set<(int, int)>
  {
    set i, k | i in s.instances && 0 <= k < 5 && k < StepsLeft(s.now, s.instances[i]) :: (i, k)
  }

  lemma FewerStepsLeft(s: State, s': State, i: int)
    requires i in s.instances && Advances(s, s', i)
    ensures |AllStepsLeft(s')| < |AllStepsLeft(s)|
  {
    var step := (i, StepsLeft(s.now, s'.instances[i]));
    assert step in AllStepsLeft(s) && step !in AllStepsLeft(s');
    Sets.SubsetSize(AllStepsLeft(s'), AllStepsLeft(s) - {step});
  }

  /** Some instance takes a step of its own. */
  ghost predicate Acts(c: Config, schedules: seq<Schedule>, s: State, next: State)
  {
    exists i, step :: IsOf(step, i) && Leads(c, schedules, s, step, next)
  }

  ghost function ActsOf(c: Config, schedules: seq<Schedule>): (State, State) -> bool
  {
    (p, q) => Acts(c, schedules, p, q)
  }

  /** Time may pass. */
  ghost predicate OnTime(c: Config, s: State)
  {
    forall i | i in s.instances :: WithinDeadlines(c, s.instances[i], s.now + 1)
  }

  /** The same instances at the same instant, none started or stopped. */
  ghost predicate SameInstances(s: State, s': State)
  {
    && s'.now == s.now && s'.instances.Keys == s.instances.Keys
    && forall i | i in s.instances :: s'.instances[i].timer.stopped == s.instances[i].timer.stopped
  }

  lemma LateActs(c: Config, schedules: seq<Schedule>, s: State) returns (next: State)
    requires c.Valid() && Inv(c, schedules, s) && !OnTime(c, s)
    ensures Acts(c, schedules, s, next) && Inv(c, schedules, next) && SameInstances(s, next)
    ensures |AllStepsLeft(next)| < |AllStepsLeft(s)|
  {
    var i :| i in s.instances && !WithinDeadlines(c, s.instances[i], s.now + 1);
    var step := LateCanAct(c, schedules, s, i);
    next := Apply(c, schedules, s, step);
    assert Leads(c, schedules, s, step, next);
    NextInv(c, schedules, s, step);
    FewerStepsLeft(s, next, i);
  }

  ghost predicate CatchingUp(c: Config, schedules: seq<Schedule>, first: State, s: State)
  {
    c.Valid() && Inv(c, schedules, s) && SameInstances(first, s)
  }

  lemma LateActsOf(c: Config, schedules: seq<Schedule>, first: State, s: State)
    requires CatchingUp(c, schedules, first, s) && !OnTime(c, s)
    ensures exists q ::
      ActsOf(c, schedules)(s, q) && CatchingUp(c, schedules, first, q) && |AllStepsLeft(q)| < |AllStepsLeft(s)|
  {
    var next := LateActs(c, schedules, s);
    assert ActsOf(c, schedules)(s, next) && CatchingUp(c, schedules, first, next);
  }

  lemma CatchUp(c: Config, schedules: seq<Schedule>, s: State) returns (s': State, m: nat)
    requires c.Valid() && Inv(c, schedules, s)
    ensures LeadsTo(s, ActsOf(c, schedules), s', m) && m <= |AllStepsLeft(s)|
    ensures SameInstances(s, s') && OnTime(c, s')
  {
    var good, goal := x => CatchingUp(c, schedules, s, x), x => OnTime(c, x);
    var work: State -> nat := x => |AllStepsLeft(x)|;
    forall p | good(p) && !goal(p) ensures exists q :: ActsOf(c, schedules)(p, q) && good(q) && work(q) < work(p) {
      LateActsOf(c, schedules, s, p);
      var q :| ActsOf(c, schedules)(p, q) && CatchingUp(c, schedules, s, q) && |AllStepsLeft(q)| < |AllStepsLeft(p)|;
      assert good(q) && work(q) < work(p);
    }
    s', m := GoalReached(ActsOf(c, schedules), good, goal, work, s);
  }

  /**
   The deadlines never stop time for good: from every reachable state, statements, answers and passes of
   the instances that are there lead, at the same instant, to a state in which time may pass. Nobody has to
   join or leave for that.
   */
  lemma TimeIsNeverStuck(c: Config, schedules: seq<Schedule>, s: State, n: nat) returns (s': State, m: nat)
    requires c.Valid() && Reachable(c, schedules, s, n)
    ensures LeadsTo(s, ActsOf(c, schedules), s', m) && m <= |AllStepsLeft(s)|
    ensures SameInstances(s, s') && Enabled(c, schedules, s', Tick(s.now + 1))
  {
    ReachableInv(c, schedules, s, n);
    s', m := CatchUp(c, schedules, s);
  }

  /** What a pass files is a finite list, whatever the expressions. */
  lemma {:induction false} ScheduledExists(schedules: seq<Schedule>, lastPass: Option<int>, now: int)
      returns (scheduled: seq<Forwarded>)
    ensures forall job :: job in scheduled <==> Files(schedules, lastPass, now, job)
  {
    scheduled := [];
    if schedules != [] {
      var i := |schedules| - 1;
      var earlier := ScheduledExists(schedules[..i], lastPass, now);
      var mine := OwedExists(schedules, lastPass, now, i);
      scheduled := earlier + mine;
      assert schedules[..i + 1] == schedules;
      forall job ensures job in scheduled <==> Files(schedules, lastPass, now, job) {
        FilesOneMore(schedules, lastPass, now, job, i);
      }
    }
  }

  lemma OwedExists(schedules: seq<Schedule>, lastPass: Option<int>, now: int, i: nat) returns (mine: seq<Forwarded>)
    requires i < |schedules|
    ensures forall job :: job in mine <==> exists t :: FilesFor(schedules, lastPass, now, job, i, t)
  {
    var s := schedules[i];
    var missed := ReadMissed(s, lastPass, now);
    var owed := ReadDue(s.expression, now) + if missed == None then [] else [missed.value];
    assert forall t :: t in owed <==> Owes(s, lastPass, now, t);
    mine := seq(|owed|, k requires 0 <= k < |owed| => Forwarded(KeyOf(s), Slot(owed[k])));
    forall job ensures job in mine <==> exists t :: FilesFor(schedules, lastPass, now, job, i, t) {
      if job in mine {
        var k :| 0 <= k < |mine| && mine[k] == job;
        assert FilesFor(schedules, lastPass, now, job, i, owed[k]);
      }
      if t :| FilesFor(schedules, lastPass, now, job, i, t) {
        var k :| 0 <= k < |owed| && owed[k] == t;
        assert mine[k] == job;
      }
    }
  }
}
