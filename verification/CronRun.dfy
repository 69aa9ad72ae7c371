/**
 The cron protocol as a whole (`onCron`, `claimRetryDelay`, `start` and `stop` in src/timekeeper.ts):
 any number of instances race a conditional stamp on one row, the winner runs a pass, and what the
 passes file lands in a table guarded by a unique index.

 A run is a sequence of atomic steps. Latency is bounded rather than zero: time may not pass a
 deadline that a statement, a reply or a pass still has to meet.
 */
module CronRun {
  import opened Options
  import opened CronPass
  import Timers = ClaimTimer

  // ---- State -----------------------------------------------------------------------------------

  /**
   `seconds` is cronMonitorIntervalSeconds. In milliseconds: `dispatch` bounds the time from an attempt
   being due to its statement running, `reply` from the statement to its answer, `read` from the answer
   to the pass reading the clock, and `pass` from the answer to the end of the pass.
   */
  datatype Config = Config(seconds: int, dispatch: int, reply: int, read: int, pass: int)
  {
    function Interval(): int { seconds * 1000 }

    /** How far past the due instant a refused instance retries. */
    function Beat(): int { if seconds * 250 < 1000 then seconds * 250 else 1000 }

    /** The bounds `applyScheduleConfig` sets, and passes that finish within an interval. */
    ghost predicate Valid()
    {
      && 1 <= seconds <= 45
      && 0 <= dispatch && 0 <= reply && 0 <= read <= pass
      && dispatch + reply < Interval()
      && reply + pass < Interval()
    }

    /** The widest two stamps come apart while an instance is alive. */
    function Spacing(): int { Interval() + Beat() + dispatch + reply }

    /** Latency small enough for consecutive due windows to meet. */
    ghost predicate WindowsMeet() { Spacing() + reply + read <= WINDOW }
  }

  datatype Fate = Pending | Abandoned | Filed(readAt: int)

  /** A stamp: when, what it replaced, whether a settled instance was alive to make it, what came of its pass. */
  datatype Claim = Claim(at: int, prior: Option<int>, attended: bool, fate: Fate)

  datatype Attempt =
    | NoAttempt
    | Sent(limit: int)
    | Won(claim: nat, limit: int)
    | Refused(at: int, elapsed: int, limit: int)

  datatype Pass =
    | NoPass
    | Reading(claim: nat, limit: int, end: int)
    | Filing(claim: nat, at: int, end: int)

  /** `settled` once an attempt of this instance has reached the row. */
  datatype Instance = Instance(timer: Timers.Timer, attempt: Attempt, pass: Pass, settled: bool)
  {
    /** The `_timekeeping` flag. */
    predicate Working() { attempt != NoAttempt || pass != NoPass }

    function Held(): Option<nat>
    {
      if attempt.Won? then Some(attempt.claim)
      else if pass != NoPass then Some(pass.claim)
      else None
    }
  }

  datatype StoredJob = StoredJob(key: string, slot: int, cancelled: bool)

  /** `row` is cron_on; `log` is the history of its stamps. */
  datatype State = State(now: int, row: Option<int>, instances: map<int, Instance>, log: seq<Claim>,
      jobs: seq<StoredJob>)

  function Init(now: int): State
  {
    State(now, None, map[], [], [])
  }

  // ---- The job table ---------------------------------------------------------------------------

  /** job_i4: one job per (slot, key) among those not cancelled. */
  ghost predicate UniqueSlots(jobs: seq<StoredJob>)
  {
    forall i, j | 0 <= i < j < |jobs| && !jobs[i].cancelled && !jobs[j].cancelled ::
      jobs[i].key != jobs[j].key || jobs[i].slot != jobs[j].slot
  }

  predicate Occupied(jobs: seq<StoredJob>, job: Forwarded)
  {
    StoredJob(job.key, job.slot, false) in jobs
  }

  predicate Stored(jobs: seq<StoredJob>, job: Forwarded)
  {
    Occupied(jobs, job) || StoredJob(job.key, job.slot, true) in jobs
  }

  /** INSERT ... ON CONFLICT DO NOTHING, one row after another. */
  function InsertAll(jobs: seq<StoredJob>, scheduled: seq<Forwarded>): seq<StoredJob>
    decreases |scheduled|
  {
    if scheduled == [] then jobs
    else
      var job := scheduled[0];
      InsertAll(if Occupied(jobs, job) then jobs else jobs + [StoredJob(job.key, job.slot, false)], scheduled[1..])
  }

  lemma {:induction false} InsertAllKeepsUnique(jobs: seq<StoredJob>, scheduled: seq<Forwarded>)
    requires UniqueSlots(jobs)
    ensures UniqueSlots(InsertAll(jobs, scheduled))
    decreases |scheduled|
  {
    if scheduled != [] {
      var job := scheduled[0];
      InsertAllKeepsUnique(if Occupied(jobs, job) then jobs
          else jobs + [StoredJob(job.key, job.slot, false)], scheduled[1..]);
    }
  }

  lemma {:induction false} InsertAllStores(jobs: seq<StoredJob>, scheduled: seq<Forwarded>)
    ensures forall r | r in jobs :: r in InsertAll(jobs, scheduled)
    ensures forall job | job in scheduled :: Stored(InsertAll(jobs, scheduled), job)
    ensures forall r | r in InsertAll(jobs, scheduled) :: r in jobs || Forwarded(r.key, r.slot) in scheduled
    decreases |scheduled|
  {
    if scheduled != [] {
      var job := scheduled[0];
      InsertAllStores(if Occupied(jobs, job) then jobs
          else jobs + [StoredJob(job.key, job.slot, false)], scheduled[1..]);
    }
  }

  /** What was there stays as it was, and what is added is what was filed, not cancelled: one row for each job. */
  lemma {:induction false} InsertAllAdds(jobs: seq<StoredJob>, scheduled: seq<Forwarded>)
    ensures jobs <= InsertAll(jobs, scheduled)
    ensures forall job | job in scheduled :: Occupied(InsertAll(jobs, scheduled), job)
    ensures forall i | |jobs| <= i < |InsertAll(jobs, scheduled)| ::
      IsAdded(jobs, scheduled, InsertAll(jobs, scheduled)[i])
    decreases |scheduled|
  {
    if scheduled != [] {
      var job := scheduled[0];
      var row := StoredJob(job.key, job.slot, false);
      var next := if Occupied(jobs, job) then jobs else jobs + [row];
      InsertAllAdds(next, scheduled[1..]);
      var all := InsertAll(jobs, scheduled);
      assert row in next;
      var k :| 0 <= k < |next| && next[k] == row;
      assert all[k] == row;
      forall i | |jobs| <= i < |all| ensures IsAdded(jobs, scheduled, all[i]) {
        if i < |next| {
          assert all[i] == next[i] == row;
        } else {
          assert IsAdded(next, scheduled[1..], all[i]);
        }
      }
    }
  }

  predicate IsAdded(jobs: seq<StoredJob>, scheduled: seq<Forwarded>, row: StoredJob)
  {
    !row.cancelled && Forwarded(row.key, row.slot) in scheduled && row !in jobs
  }

  // ---- Steps -----------------------------------------------------------------------------------

  /**
   How long a refused instance waits, by how old the row was when it was refused. A null or negative
   age reads as a row stamped this instant.
   */
  function RetryDelay(c: Config, elapsed: Option<int>): int
  {
    var remaining :=
      if elapsed.Some? && elapsed.value > 0
      then if c.Interval() - elapsed.value > 0 then c.Interval() - elapsed.value else 0
      else c.Interval();
    remaining + c.Beat()
  }

  datatype Step =
    | Join(i: int)            // start(): the first attempt at once, the timer an interval out
    | Leave(i: int)           // stop(): a statement or pass in flight runs on
    | Fire(i: int)            // the claim timer goes off
    | Statement(i: int)       // the conditional UPDATE runs
    | Answer(i: int)          // its answer arrives; the timer is anchored
    | Read(i: int)            // the pass reads the clock
    | File(i: int, scheduled: seq<Forwarded>)  // the pass inserts its jobs
    | Cancel(j: nat)
    | Resume(j: nat)
    | Tick(to: int)

  /** Some instance that has reached the row before is still running. */
  ghost predicate Attended(s: State)
  {
    exists i :: i in s.instances && !s.instances[i].timer.stopped && s.instances[i].settled
  }

  /** Time may go on to `t` without overrunning anything this instance is waiting for. */
  predicate WithinDeadlines(c: Config, inst: Instance, t: int)
  {
    && (inst.timer.wake.Some? ==> t <= inst.timer.wake.value + c.dispatch)
    && (match inst.attempt
        case NoAttempt => true
        case Sent(limit) => t <= limit
        case Won(_, limit) => t <= limit
        case Refused(_, _, limit) => t <= limit)
    && (match inst.pass
        case NoPass => true
        case Reading(_, limit, _) => t <= limit
        case Filing(_, _, end) => t <= end)
  }

  ghost predicate Enabled(c: Config, schedules: seq<Schedule>, s: State, step: Step)
  {
    match step
    case Join(i) => i in s.instances ==> s.instances[i].timer.stopped && !s.instances[i].Working()
    case Leave(i) => i in s.instances
    case Fire(i) => i in s.instances && s.instances[i].timer.wake.Some? && s.instances[i].timer.wake.value <= s.now
    case Statement(i) => i in s.instances && s.instances[i].attempt.Sent?
    case Answer(i) => i in s.instances && (s.instances[i].attempt.Won? || s.instances[i].attempt.Refused?)
    case Read(i) => i in s.instances && s.instances[i].pass.Reading?
    case File(i, scheduled) =>
      && i in s.instances && s.instances[i].pass.Filing? && s.instances[i].pass.claim < |s.log|
      && forall job :: job in scheduled <==> Files(schedules, s.log[s.instances[i].pass.claim].prior,
          s.instances[i].pass.at, job)
    case Cancel(j) => j < |s.jobs|
    case Resume(j) => j < |s.jobs| && s.jobs[j].cancelled && !Occupied(s.jobs, Forwarded(s.jobs[j].key, s.jobs[j].slot))
    case Tick(t) => s.now <= t && forall i | i in s.instances :: WithinDeadlines(c, s.instances[i], t)
  }

  /** The row is at least an interval old, or was never stamped: `trySetTimestamp`. */
  predicate Claimable(c: Config, s: State)
  {
    s.row == None || s.now - s.row.value >= c.Interval()
  }

  ghost function Apply(c: Config, schedules: seq<Schedule>, s: State, step: Step): State
    requires Enabled(c, schedules, s, step)
  {
    match step
    case Join(i) =>
      With(s, i, Instance(Timers.Start(Timers.Fresh, s.now, c.Interval()), Sent(s.now + c.dispatch), NoPass, false))
    case Leave(i) =>
      var inst := s.instances[i];
      With(s, i, inst.(timer := Timers.Stop(inst.timer)))
    case Fire(i) => With(s, i, Fired(c, s.now, s.instances[i]))
    case Statement(i) =>
      var inst := s.instances[i];
      if Claimable(c, s) then
        With(s, i, inst.(attempt := Won(|s.log|, s.now + c.reply), settled := true))
          .(row := Some(s.now), log := s.log + [Claim(s.now, s.row, Attended(s), Pending)])
      else
        With(s, i, inst.(attempt := Refused(s.now, s.now - s.row.value, s.now + c.reply), settled := true))
    case Answer(i) =>
      var inst := s.instances[i];
      if inst.attempt.Won? && inst.timer.stopped then
        var anchored := Timers.Anchor(inst.timer, s.now, c.Interval());
        Settle(With(s, i, inst.(timer := anchored, attempt := NoAttempt)), inst.attempt.claim, Abandoned)
      else With(s, i, Answered(c, s.now, inst))
    case Read(i) =>
      var inst := s.instances[i];
      With(s, i, inst.(pass := Filing(inst.pass.claim, s.now, inst.pass.end)))
    case File(i, scheduled) =>
      var inst := s.instances[i];
      var ended := With(s, i, inst.(pass := NoPass, timer := Timers.RunEnded(inst.timer, s.now, c.Interval())));
      if inst.timer.stopped
      then Settle(ended, inst.pass.claim, Abandoned)
      else Settle(ended, inst.pass.claim, Filed(inst.pass.at)).(jobs := InsertAll(s.jobs, scheduled))
    case Cancel(j) => s.(jobs := s.jobs[j := s.jobs[j].(cancelled := true)])
    case Resume(j) => s.(jobs := s.jobs[j := s.jobs[j].(cancelled := false)])
    case Tick(t) => s.(now := t)
  }

  function With(s: State, i: int, inst: Instance): State
  {
    s.(instances := s.instances[i := inst])
  }

  /** A timer-driven call of `onCron`: it attempts the claim, or finds the flag set and re-arms. */
  function Fired(c: Config, now: int, inst: Instance): Instance
  {
    var due := inst.timer.due;
    var fired := Timers.TimeoutFired(inst.timer, now);
    if !Timers.Runs(inst.timer, now) then inst.(timer := fired)
    else if inst.Working() then inst.(timer := Timers.RunEnded(fired, now, c.Interval()))
    else inst.(timer := fired, attempt := Sent(due + c.dispatch))
  }

  /** The instance whose answer has arrived, unless its claim is abandoned with it. */
  function Answered(c: Config, now: int, inst: Instance): Instance
  {
    match inst.attempt
    case Won(k, _) =>
      inst.(timer := Timers.Anchor(inst.timer, now, c.Interval()), attempt := NoAttempt,
          pass := Reading(k, now + c.read, now + c.pass))
    case Refused(_, elapsed, _) => inst.(timer := Timers.Anchor(inst.timer, now, RetryDelay(c, Some(elapsed))),
        attempt := NoAttempt)
    case _ => inst
  }

  function Settle(s: State, k: nat, fate: Fate): State
  {
    if k < |s.log| then s.(log := s.log[k := s.log[k].(fate := fate)]) else s
  }

  // ---- The invariant ---------------------------------------------------------------------------

  ghost predicate AttemptOk(c: Config, now: int, row: Option<int>, log: seq<Claim>, inst: Instance)
  {
    var waits := inst.timer.wake.Some?;
    match inst.attempt
    case NoAttempt => true
    case Sent(limit) =>
      && now <= limit
      && (waits ==> limit + c.reply < inst.timer.due)
      && (inst.settled ==> row.Some? && limit <= row.value + c.Spacing())
    case Won(k, limit) =>
      && now <= limit && inst.settled
      && (waits ==> limit < inst.timer.due)
      && k < |log| && log[k].fate == Pending && row.Some? && log[k].at <= row.value
      && limit == log[k].at + c.reply
    case Refused(at, elapsed, limit) =>
      && at <= now <= limit && inst.settled
      && (waits ==> limit < inst.timer.due)
      && limit == at + c.reply
      && 0 <= elapsed < c.Interval() && row.Some? && at - elapsed <= row.value
  }

  ghost predicate PassOk(c: Config, now: int, log: seq<Claim>, inst: Instance)
  {
    inst.pass != NoPass ==>
      && inst.attempt == NoAttempt
      && inst.pass.claim < |log| && log[inst.pass.claim].fate == Pending
      && (!inst.timer.stopped ==> inst.timer.anchored)
      && now <= inst.pass.end <= log[inst.pass.claim].at + c.reply + c.pass
      && (inst.timer.wake.Some? ==> inst.pass.end < inst.timer.due)
      && (inst.pass.Reading? ==>
          log[inst.pass.claim].at <= now <= inst.pass.limit <= inst.pass.end
          && inst.pass.limit <= log[inst.pass.claim].at + c.reply + c.read)
      && (inst.pass.Filing? ==>
          log[inst.pass.claim].at <= inst.pass.at <= log[inst.pass.claim].at + c.reply + c.read
          && inst.pass.at <= now)
  }

  ghost predicate InstanceOk(c: Config, now: int, row: Option<int>, log: seq<Claim>, inst: Instance)
  {
    && (inst.timer.stopped ==> inst.timer.wake == None)
    && (inst.timer.wake.Some? ==> inst.timer.wake.value == inst.timer.due && now <= inst.timer.due + c.dispatch)
    && (!inst.timer.stopped ==> inst.timer.wake.Some? || inst.attempt != NoAttempt)
    && (inst.settled && inst.timer.wake.Some? && inst.attempt == NoAttempt ==>
        row.Some?
        && inst.timer.due <= row.value + c.Interval() + c.Beat() + c.reply)
    && AttemptOk(c, now, row, log, inst)
    && PassOk(c, now, log, inst)
  }

  ghost predicate ClaimOk(c: Config, now: int, log: seq<Claim>, k: nat)
    requires k < |log|
  {
    && log[k].at <= now
    && (log[k].fate.Filed? ==>
        log[k].at <= log[k].fate.readAt <= log[k].at + c.reply + c.read
        && log[k].fate.readAt <= now)
    && (if k == 0 then log[k].prior == None
        else
          && log[k].prior == Some(log[k - 1].at)
          && log[k - 1].at + c.Interval() <= log[k].at
          && (log[k].attended ==> log[k].at <= log[k - 1].at + c.Spacing()))
  }

  ghost predicate LogOk(c: Config, now: int, row: Option<int>, log: seq<Claim>)
  {
    && row == (if log == [] then None else Some(log[|log| - 1].at))
    && forall k | 0 <= k < |log| :: ClaimOk(c, now, log, k)
  }

  /** Two instances never hold the same claim. */
  ghost predicate HoldersDiffer(instances: map<int, Instance>)
  {
    forall i, j | i in instances && j in instances && i != j && instances[i].Held().Some? ::
      instances[i].Held() != instances[j].Held()
  }

  /** Every filed pass left its jobs in the table, and every job there is one some pass filed. */
  ghost predicate JobsOk(schedules: seq<Schedule>, log: seq<Claim>, jobs: seq<StoredJob>)
  {
    && UniqueSlots(jobs)
    && (forall k, job | 0 <= k < |log| && log[k].fate.Filed?
        && Files(schedules, log[k].prior, log[k].fate.readAt, job) :: Stored(jobs, job))
    && forall r | r in jobs :: FiledBySome(schedules, log, Forwarded(r.key, r.slot))
  }

  ghost predicate FiledBySome(schedules: seq<Schedule>, log: seq<Claim>, job: Forwarded)
  {
    exists k :: 0 <= k < |log| && log[k].fate.Filed? && Files(schedules, log[k].prior, log[k].fate.readAt, job)
  }

  ghost predicate InstancesOk(c: Config, s: State)
  {
    forall i | i in s.instances :: InstanceOk(c, s.now, s.row, s.log, s.instances[i])
  }

  ghost predicate Inv(c: Config, schedules: seq<Schedule>, s: State)
  {
    && LogOk(c, s.now, s.row, s.log)
    && InstancesOk(c, s)
    && HoldersDiffer(s.instances)
    && JobsOk(schedules, s.log, s.jobs)
  }

  lemma InitInv(c: Config, schedules: seq<Schedule>, now: int)
    ensures Inv(c, schedules, Init(now))
  {
  }

  /** An instance that has reached the row before keeps the row from growing older than the spacing. */
  lemma SettledBound(c: Config, now: int, row: Option<int>, log: seq<Claim>, inst: Instance)
    requires c.Valid() && InstanceOk(c, now, row, log, inst)
    requires inst.settled && !inst.timer.stopped
    ensures row.Some? && now <= row.value + c.Spacing()
  {
  }

  /** What another instance's step does to the row and the log leaves this one's promises standing. */
  lemma InstanceFrame(c: Config, now: int, row: Option<int>, log: seq<Claim>, row': Option<int>, log': seq<Claim>,
      inst: Instance)
    requires InstanceOk(c, now, row, log, inst)
    requires row.Some? ==> row'.Some? && row.value <= row'.value
    requires |log| <= |log'| && forall k | 0 <= k < |log| :: log'[k].at == log[k].at
    requires inst.Held().Some? && inst.Held().value < |log| ==>
        log'[inst.Held().value].fate == log[inst.Held().value].fate
    ensures InstanceOk(c, now, row', log', inst)
  {
  }

  lemma JoinInv(c: Config, schedules: seq<Schedule>, s: State, i: int)
    requires c.Valid() && Inv(c, schedules, s) && Enabled(c, schedules, s, Join(i))
    ensures Inv(c, schedules, Apply(c, schedules, s, Join(i)))
  {
  }

  lemma LeaveInv(c: Config, schedules: seq<Schedule>, s: State, i: int)
    requires c.Valid() && Inv(c, schedules, s) && Enabled(c, schedules, s, Leave(i))
    ensures Inv(c, schedules, Apply(c, schedules, s, Leave(i)))
  {
    assert InstanceOk(c, s.now, s.row, s.log, s.instances[i]);
  }

  lemma FireInv(c: Config, schedules: seq<Schedule>, s: State, i: int)
    requires c.Valid() && Inv(c, schedules, s) && Enabled(c, schedules, s, Fire(i))
    ensures !s.instances[i].Working()
    ensures Inv(c, schedules, Apply(c, schedules, s, Fire(i)))
  {
    var inst := s.instances[i];
    assert InstanceOk(c, s.now, s.row, s.log, inst);
    assert InstanceOk(c, s.now, s.row, s.log, Fired(c, s.now, inst));
  }

  /** The new claim follows the last one by at least an interval, and by at most the spacing if attended. */
  lemma ClaimAppended(c: Config, s: State)
    requires c.Valid() && LogOk(c, s.now, s.row, s.log) && InstancesOk(c, s) && Claimable(c, s)
    ensures LogOk(c, s.now, Some(s.now), s.log + [Claim(s.now, s.row, Attended(s), Pending)])
  {
    var log' := s.log + [Claim(s.now, s.row, Attended(s), Pending)];
    if Attended(s) {
      var j :| j in s.instances && !s.instances[j].timer.stopped && s.instances[j].settled;
      SettledBound(c, s.now, s.row, s.log, s.instances[j]);
    }
    forall k | 0 <= k < |log'| ensures ClaimOk(c, s.now, log', k) {
      if k < |s.log| {
        assert ClaimOk(c, s.now, s.log, k);
      }
    }
  }

  lemma StatementWonInv(c: Config, schedules: seq<Schedule>, s: State, i: int)
    requires c.Valid() && Inv(c, schedules, s) && Enabled(c, schedules, s, Statement(i)) && Claimable(c, s)
    ensures Inv(c, schedules, Apply(c, schedules, s, Statement(i)))
  {
    var s' := Apply(c, schedules, s, Statement(i));
    ClaimAppended(c, s);
    assert s.log != [] ==> ClaimOk(c, s.now, s.log, |s.log| - 1);
    assert InstanceOk(c, s.now, s.row, s.log, s.instances[i]);
    forall j | j in s'.instances ensures InstanceOk(c, s'.now, s'.row, s'.log, s'.instances[j]) {
      if j != i {
        InstanceFrame(c, s.now, s.row, s.log, s'.row, s'.log, s.instances[j]);
      }
    }
    forall j | j in s.instances && s.instances[j].Held().Some? ensures s.instances[j].Held().value < |s.log| {
      assert InstanceOk(c, s.now, s.row, s.log, s.instances[j]);
    }
    LogExtended(schedules, s.log, s'.log, s.jobs);
  }

  lemma StatementInv(c: Config, schedules: seq<Schedule>, s: State, i: int)
    requires c.Valid() && Inv(c, schedules, s) && Enabled(c, schedules, s, Statement(i))
    ensures Inv(c, schedules, Apply(c, schedules, s, Statement(i)))
  {
    if Claimable(c, s) {
      StatementWonInv(c, schedules, s, i);
    } else {
      var s' := Apply(c, schedules, s, Statement(i));
      assert s.log != [] ==> ClaimOk(c, s.now, s.log, |s.log| - 1);
      assert InstanceOk(c, s.now, s.row, s.log, s.instances[i]);
      assert InstanceOk(c, s'.now, s'.row, s'.log, s'.instances[i]);
    }
  }

  /** Jobs stay accounted for while the log only gains pending or abandoned claims. */
  lemma LogExtended(schedules: seq<Schedule>, log: seq<Claim>, log': seq<Claim>, jobs: seq<StoredJob>)
    requires JobsOk(schedules, log, jobs) && |log| <= |log'|
    requires forall k | 0 <= k < |log'| && log'[k].fate.Filed? :: k < |log| && log'[k] == log[k]
    requires forall k | 0 <= k < |log| && log[k].fate.Filed? :: log'[k] == log[k]
    ensures JobsOk(schedules, log', jobs)
  {
    forall r | r in jobs ensures FiledBySome(schedules, log', Forwarded(r.key, r.slot)) {
      var k :| 0 <= k < |log| && log[k].fate.Filed?
          && Files(schedules, log[k].prior, log[k].fate.readAt, Forwarded(r.key, r.slot));
      assert log'[k] == log[k];
    }
  }

  /** Settling the claim an instance holds: the log keeps its times and the other holders theirs. */
  lemma SettleInv(c: Config, schedules: seq<Schedule>, s: State, i: int, inst: Instance, k: nat, fate: Fate)
    requires c.Valid() && Inv(c, schedules, s) && i in s.instances
    requires s.instances[i].Held() == Some(k) && k < |s.log|
    requires inst.Held() == None && InstanceOk(c, s.now, s.row, s.log, inst)
    requires !fate.Pending?
    requires fate.Filed? ==> s.log[k].at <= fate.readAt <= s.log[k].at + c.reply + c.read && fate.readAt <= s.now
    ensures var s' := Settle(With(s, i, inst), k, fate);
      LogOk(c, s'.now, s'.row, s'.log) && InstancesOk(c, s') && HoldersDiffer(s'.instances)
  {
    var s' := Settle(With(s, i, inst), k, fate);
    assert forall j | 0 <= j < |s.log| :: ClaimOk(c, s.now, s.log, j) ==> ClaimOk(c, s.now, s'.log, j);
    forall j | j in s'.instances ensures InstanceOk(c, s'.now, s'.row, s'.log, s'.instances[j]) {
      InstanceFrame(c, s.now, s.row, s.log, s'.row, s'.log, s'.instances[j]);
    }
  }

  /** An instance may become any that keeps its promises and holds no claim it did not hold. */
  lemma WithInv(c: Config, schedules: seq<Schedule>, s: State, i: int, inst: Instance)
    requires c.Valid() && Inv(c, schedules, s) && i in s.instances
    requires InstanceOk(c, s.now, s.row, s.log, inst) && (inst.Held() == None || inst.Held() == s.instances[i].Held())
    ensures Inv(c, schedules, With(s, i, inst))
  {
  }

  lemma AbandonedInv(c: Config, schedules: seq<Schedule>, s: State, i: int)
    requires c.Valid() && Inv(c, schedules, s) && Enabled(c, schedules, s, Answer(i))
    requires s.instances[i].attempt.Won? && s.instances[i].timer.stopped
    ensures Inv(c, schedules, Apply(c, schedules, s, Answer(i)))
  {
    var inst := s.instances[i];
    assert InstanceOk(c, s.now, s.row, s.log, inst);
    var s', k := Apply(c, schedules, s, Answer(i)), inst.attempt.claim;
    assert ClaimOk(c, s.now, s.log, k);
    SettleInv(c, schedules, s, i, inst.(timer := Timers.Anchor(inst.timer, s.now, c.Interval()), attempt := NoAttempt),
        k, Abandoned);
    LogExtended(schedules, s.log, s'.log, s.jobs);
  }

  lemma AnswerInv(c: Config, schedules: seq<Schedule>, s: State, i: int)
    requires c.Valid() && Inv(c, schedules, s) && Enabled(c, schedules, s, Answer(i))
    ensures Inv(c, schedules, Apply(c, schedules, s, Answer(i)))
  {
    var inst := s.instances[i];
    assert InstanceOk(c, s.now, s.row, s.log, inst);
    if inst.attempt.Won? && inst.timer.stopped {
      AbandonedInv(c, schedules, s, i);
    } else if inst.attempt.Won? {
      WonAnswered(c, s.now, s.row, s.log, inst);
      WithInv(c, schedules, s, i, Answered(c, s.now, inst));
    } else {
      RefusedAnswered(c, s.now, s.row, s.log, inst);
      WithInv(c, schedules, s, i, Answered(c, s.now, inst));
    }
  }

  lemma WonAnswered(c: Config, now: int, row: Option<int>, log: seq<Claim>, inst: Instance)
    requires c.Valid() && InstanceOk(c, now, row, log, inst) && LogOk(c, now, row, log)
    requires inst.attempt.Won? && !inst.timer.stopped
    ensures InstanceOk(c, now, row, log, Answered(c, now, inst))
  {
    assert ClaimOk(c, now, log, inst.attempt.claim);
  }

  lemma RefusedAnswered(c: Config, now: int, row: Option<int>, log: seq<Claim>, inst: Instance)
    requires c.Valid() && InstanceOk(c, now, row, log, inst) && inst.attempt.Refused?
    ensures InstanceOk(c, now, row, log, Answered(c, now, inst))
  {
  }

  lemma ReadInv(c: Config, schedules: seq<Schedule>, s: State, i: int)
    requires c.Valid() && Inv(c, schedules, s) && Enabled(c, schedules, s, Read(i))
    ensures Inv(c, schedules, Apply(c, schedules, s, Read(i)))
  {
    assert InstanceOk(c, s.now, s.row, s.log, s.instances[i]);
    var s' := Apply(c, schedules, s, Read(i));
    assert InstanceOk(c, s'.now, s'.row, s'.log, s'.instances[i]);
  }

  lemma FileInv(c: Config, schedules: seq<Schedule>, s: State, i: int, scheduled: seq<Forwarded>)
    requires c.Valid() && Inv(c, schedules, s) && Enabled(c, schedules, s, File(i, scheduled))
    ensures Inv(c, schedules, Apply(c, schedules, s, File(i, scheduled)))
  {
    var inst := s.instances[i];
    assert InstanceOk(c, s.now, s.row, s.log, inst);
    var s' := Apply(c, schedules, s, File(i, scheduled));
    var k := inst.pass.claim;
    var ended := inst.(pass := NoPass, timer := Timers.RunEnded(inst.timer, s.now, c.Interval()));
    assert InstanceOk(c, s.now, s.row, s.log, ended);
    if inst.timer.stopped {
      SettleInv(c, schedules, s, i, ended, k, Abandoned);
      LogExtended(schedules, s.log, s'.log, s.jobs);
    } else {
      SettleInv(c, schedules, s, i, ended, k, Filed(inst.pass.at));
      FiledJobs(schedules, s.log, s.jobs, k, inst.pass.at, scheduled);
    }
  }

  lemma FiledJobs(schedules: seq<Schedule>, log: seq<Claim>, jobs: seq<StoredJob>, k: nat, readAt: int,
      scheduled: seq<Forwarded>)
    requires JobsOk(schedules, log, jobs) && k < |log| && log[k].fate == Pending
    requires forall job :: job in scheduled <==> Files(schedules, log[k].prior, readAt, job)
    ensures JobsOk(schedules, log[k := log[k].(fate := Filed(readAt))], InsertAll(jobs, scheduled))
  {
    var log' := log[k := log[k].(fate := Filed(readAt))];
    var jobs' := InsertAll(jobs, scheduled);
    InsertAllKeepsUnique(jobs, scheduled);
    InsertAllStores(jobs, scheduled);
    forall r | r in jobs' ensures FiledBySome(schedules, log', Forwarded(r.key, r.slot)) {
      if r in jobs {
        var j :| 0 <= j < |log| && log[j].fate.Filed?
            && Files(schedules, log[j].prior, log[j].fate.readAt, Forwarded(r.key, r.slot));
        assert log'[j] == log[j];
      } else {
        assert log'[k].fate == Filed(readAt) && Files(schedules, log'[k].prior, readAt, Forwarded(r.key, r.slot));
      }
    }
    forall j, job | 0 <= j < |log'| && log'[j].fate.Filed? && Files(schedules, log'[j].prior, log'[j].fate.readAt, job)
      ensures Stored(jobs', job)
    {
      if j != k {
        assert log'[j] == log[j];
        assert Stored(jobs, job);
      }
    }
  }

  lemma FlipUnique(jobs: seq<StoredJob>, j: nat, cancelled: bool)
    requires UniqueSlots(jobs) && j < |jobs|
    requires cancelled || !Occupied(jobs, Forwarded(jobs[j].key, jobs[j].slot))
    ensures UniqueSlots(jobs[j := jobs[j].(cancelled := cancelled)])
  {
    assert forall m | 0 <= m < |jobs| && !jobs[m].cancelled && jobs[m].key == jobs[j].key
        && jobs[m].slot == jobs[j].slot :: jobs[m] == StoredJob(jobs[j].key, jobs[j].slot, false);
  }

  lemma FlipStored(jobs: seq<StoredJob>, j: nat, cancelled: bool, job: Forwarded)
    requires j < |jobs| && Stored(jobs, job)
    ensures Stored(jobs[j := jobs[j].(cancelled := cancelled)], job)
  {
    var jobs' := jobs[j := jobs[j].(cancelled := cancelled)];
    var m :| 0 <= m < |jobs| && jobs[m].key == job.key && jobs[m].slot == job.slot;
    assert jobs'[m].key == job.key && jobs'[m].slot == job.slot && jobs'[m] in jobs';
  }

  /** Cancelling a job, or resuming one whose place is free, keeps every row and the index. */
  lemma FlipInv(schedules: seq<Schedule>, log: seq<Claim>, jobs: seq<StoredJob>, j: nat, cancelled: bool)
    requires JobsOk(schedules, log, jobs) && j < |jobs|
    requires cancelled || !Occupied(jobs, Forwarded(jobs[j].key, jobs[j].slot))
    ensures JobsOk(schedules, log, jobs[j := jobs[j].(cancelled := cancelled)])
  {
    var jobs' := jobs[j := jobs[j].(cancelled := cancelled)];
    FlipUnique(jobs, j, cancelled);
    forall k, job | 0 <= k < |log| && log[k].fate.Filed? && Files(schedules, log[k].prior, log[k].fate.readAt, job)
      ensures Stored(jobs', job)
    {
      FlipStored(jobs, j, cancelled, job);
    }
    forall r | r in jobs' ensures FiledBySome(schedules, log, Forwarded(r.key, r.slot)) {
      var m :| 0 <= m < |jobs'| && jobs'[m] == r;
      assert jobs[m] in jobs && jobs[m].key == r.key && jobs[m].slot == r.slot;
    }
  }

  lemma TickInv(c: Config, schedules: seq<Schedule>, s: State, t: int)
    requires c.Valid() && Inv(c, schedules, s) && Enabled(c, schedules, s, Tick(t))
    ensures Inv(c, schedules, Apply(c, schedules, s, Tick(t)))
  {
    forall i | i in s.instances ensures InstanceOk(c, t, s.row, s.log, s.instances[i]) {
      assert WithinDeadlines(c, s.instances[i], t);
    }
    assert forall k | 0 <= k < |s.log| :: ClaimOk(c, s.now, s.log, k) ==> ClaimOk(c, t, s.log, k);
  }

  lemma NextInv(c: Config, schedules: seq<Schedule>, s: State, step: Step)
    requires c.Valid() && Inv(c, schedules, s) && Enabled(c, schedules, s, step)
    ensures Inv(c, schedules, Apply(c, schedules, s, step))
  {
    match step
    case Join(i) => JoinInv(c, schedules, s, i);
    case Leave(i) => LeaveInv(c, schedules, s, i);
    case Fire(i) => FireInv(c, schedules, s, i);
    case Statement(i) => StatementInv(c, schedules, s, i);
    case Answer(i) => AnswerInv(c, schedules, s, i);
    case Read(i) => ReadInv(c, schedules, s, i);
    case File(i, scheduled) => FileInv(c, schedules, s, i, scheduled);
    case Cancel(j) => FlipInv(schedules, s.log, s.jobs, j, true);
    case Resume(j) => FlipInv(schedules, s.log, s.jobs, j, false);
    case Tick(t) => TickInv(c, schedules, s, t);
  }

  // ---- Whole runs ------------------------------------------------------------------------------

  /** `s` is what some run of `n` steps from an empty deployment leads to. */
  ghost predicate Reachable(c: Config, schedules: seq<Schedule>, s: State, n: nat)
    decreases n
  {
    if n == 0 then s == Init(s.now)
    else exists p, step :: Reachable(c, schedules, p, n - 1) && Leads(c, schedules, p, step, s)
  }

  ghost predicate Leads(c: Config, schedules: seq<Schedule>, p: State, step: Step, s: State)
  {
    Enabled(c, schedules, p, step) && s == Apply(c, schedules, p, step)
  }

  lemma {:induction false} ReachableInv(c: Config, schedules: seq<Schedule>, s: State, n: nat)
    requires c.Valid() && Reachable(c, schedules, s, n)
    ensures Inv(c, schedules, s)
    decreases n
  {
    if n == 0 {
      InitInv(c, schedules, s.now);
    } else {
      var p, step :| Reachable(c, schedules, p, n - 1) && Leads(c, schedules, p, step, s);
      ReachableInv(c, schedules, p, n - 1);
      NextInv(c, schedules, p, step);
    }
  }

  /** The singleton key of a schedule's jobs. */
  function KeyOf(s: Schedule): string
  {
    OccurrenceKey(s.name, s.key)
  }
}
