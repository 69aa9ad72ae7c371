/**
 What a run loses and what it catches up when passes are missing: exactly which instants no pass ever reads,
 and when there are any.
 */
module CronOutages {
  import opened Options
  import opened Occurrences
  import opened CronClaims
  import opened CronPass
  import opened CronRun

  /** Claims strictly between `previous` and `k` never ran their pass; those two did. */
  ghost predicate Successive(log: seq<Claim>, previous: nat, k: nat)
  {
    && previous < k < |log| && log[previous].fate.Filed? && log[k].fate.Filed?
    && forall m | previous < m < k :: !log[m].fate.Filed?
  }

  /** Some pass of the run has the instant in reach. */
  ghost predicate ReadBySome(log: seq<Claim>, t: int)
  {
    exists m :: 0 <= m < |log| && Reaches(log, m, t)
  }

  ghost predicate Reaches(log: seq<Claim>, m: nat, t: int)
    requires m < |log|
  {
    log[m].fate.Filed? && InReach(log[m].prior, log[m].fate.readAt, t)
  }

  /** What no pass has in reach, no pass files for any schedule, and nothing else goes unfiled by all. */
  lemma UnreadIsUnowed(log: seq<Claim>, t: int)
    ensures ReadBySome(log, t) <==>
      exists m, s: Schedule :: 0 <= m < |log| && log[m].fate.Filed? && Owes(s, log[m].prior, log[m].fate.readAt, t)
  {
    if m :| 0 <= m < |log| && Reaches(log, m, t) {
      InReachIffOwable(log[m].prior, log[m].fate.readAt, t);
      var s: Schedule :| Owes(s, log[m].prior, log[m].fate.readAt, t);
    }
    if m, s: Schedule :| 0 <= m < |log| && log[m].fate.Filed? && Owes(s, log[m].prior, log[m].fate.readAt, t) {
      InReachIffOwable(log[m].prior, log[m].fate.readAt, t);
      assert Reaches(log, m, t);
    }
  }

  /** Stamps rise, and a pass reads the clock before the next stamp is made. */
  lemma {:induction false} StampsRise(c: Config, now: int, row: Option<int>, log: seq<Claim>, j: nat, k: nat)
    requires c.Valid() && LogOk(c, now, row, log) && j < k < |log|
    ensures log[j].at < log[k].at && (log[j].fate.Filed? ==> log[j].fate.readAt < log[k].at)
  {
    assert ClaimOk(c, now, log, j) && ClaimOk(c, now, log, k);
    if j < k - 1 {
      StampsRise(c, now, row, log, j, k - 1);
    }
  }

  /**
   What an abandoned claim costs, however long the outage: an instant between two successive passes is read
   by no pass of the whole run, before or after, if and only if it is older than both the later pass's
   window and the stamp that pass replaced.
   */
  lemma LostBetweenPasses(c: Config, schedules: seq<Schedule>, s: State, n: nat, previous: nat, k: nat, t: int)
    requires c.Valid() && Reachable(c, schedules, s, n) && Successive(s.log, previous, k)
    requires s.log[previous].fate.readAt < t <= s.log[k].fate.readAt
    ensures !ReadBySome(s.log, t) <==> t <= s.log[k - 1].at && t <= s.log[k].fate.readAt - WINDOW
  {
    ReachableInv(c, schedules, s, n);
    assert ClaimOk(c, s.now, s.log, k);
    if t <= s.log[k - 1].at && t <= s.log[k].fate.readAt - WINDOW {
      forall m | 0 <= m < |s.log| ensures !Reaches(s.log, m, t) {
        OtherPassesMiss(c, s.now, s.row, s.log, previous, k, t, m);
      }
    } else {
      assert Reaches(s.log, k, t);
    }
  }

  lemma OtherPassesMiss(c: Config, now: int, row: Option<int>, log: seq<Claim>, previous: nat, k: nat, t: int, m: nat)
    requires c.Valid() && LogOk(c, now, row, log) && Successive(log, previous, k) && m < |log|
    requires log[previous].fate.readAt < t <= log[k - 1].at && t <= log[k].fate.readAt - WINDOW
    ensures !Reaches(log, m, t)
  {
    assert ClaimOk(c, now, log, m) && ClaimOk(c, now, log, k) && ClaimOk(c, now, log, previous);
    if m < previous {
      StampsRise(c, now, row, log, m, previous);
    } else if m > k {
      StampsRise(c, now, row, log, k, m);
      if k < m - 1 {
        StampsRise(c, now, row, log, k, m - 1);
      }
      StampsRise(c, now, row, log, k - 1, k);
    }
  }

  ghost predicate AbandonedBetween(log: seq<Claim>, previous: nat, k: nat)
  {
    exists m :: previous < m < k && m < |log| && log[m].fate == Abandoned
  }

  lemma LostMeansAbandoned(c: Config, schedules: seq<Schedule>, s: State, n: nat, previous: nat, k: nat, t: int)
    requires c.Valid() && Reachable(c, schedules, s, n) && Successive(s.log, previous, k)
    requires s.log[previous].fate.readAt < t <= s.log[k].fate.readAt && !ReadBySome(s.log, t)
    ensures AbandonedBetween(s.log, previous, k) && s.log[k].fate.readAt - s.log[previous].fate.readAt > WINDOW
  {
    LostBetweenPasses(c, schedules, s, n, previous, k, t);
    EarlierClaimsSettled(c, schedules, s, n, k - 1);
    ReachableInv(c, schedules, s, n);
    assert ClaimOk(c, s.now, s.log, previous);
    assert s.log[k - 1].fate == Abandoned;
  }

  lemma AbandonedMeansLost(c: Config, schedules: seq<Schedule>, s: State, n: nat, previous: nat, k: nat)
    requires c.Valid() && Reachable(c, schedules, s, n) && Successive(s.log, previous, k)
    requires AbandonedBetween(s.log, previous, k) && s.log[k].fate.readAt - s.log[previous].fate.readAt > WINDOW
    ensures !ReadBySome(s.log, s.log[previous].fate.readAt + 1)
  {
    ReachableInv(c, schedules, s, n);
    StampsRise(c, s.now, s.row, s.log, previous, k - 1);
    LostBetweenPasses(c, schedules, s, n, previous, k, s.log[previous].fate.readAt + 1);
  }

  /**
   So instants are lost between two successive passes exactly when a claim between them was abandoned and
   they read the clock more than a window apart.
   */
  lemma LostIffAbandoned(c: Config, schedules: seq<Schedule>, s: State, n: nat, previous: nat, k: nat)
    requires c.Valid() && Reachable(c, schedules, s, n) && Successive(s.log, previous, k)
    ensures (exists t :: s.log[previous].fate.readAt < t <= s.log[k].fate.readAt && !ReadBySome(s.log, t))
      <==> AbandonedBetween(s.log, previous, k) && s.log[k].fate.readAt - s.log[previous].fate.readAt > WINDOW
  {
    var from, to := s.log[previous].fate.readAt, s.log[k].fate.readAt;
    if t :| from < t <= to && !ReadBySome(s.log, t) {
      LostMeansAbandoned(c, schedules, s, n, previous, k, t);
    }
    if AbandonedBetween(s.log, previous, k) && to - from > WINDOW {
      AbandonedMeansLost(c, schedules, s, n, previous, k);
      assert from < from + 1 <= to;
    }
  }

  /** And a lost occurrence has no job of its own: a job in its slot stands for another one that some pass owed. */
  lemma LostHasNoJob(c: Config, schedules: seq<Schedule>, s: State, n: nat, t: int, job: StoredJob)
      returns (i: nat, u: int)
    requires c.Valid() && Reachable(c, schedules, s, n) && !ReadBySome(s.log, t) && job in s.jobs && job.slot == Slot(t)
    ensures i < |schedules| && job.key == KeyOf(schedules[i]) && Occurs(schedules[i].expression, u)
        && Slot(u) == Slot(t)
    ensures u != t && ReadBySome(s.log, u)
  {
    ReachableInv(c, schedules, s, n);
    var f := Forwarded(job.key, job.slot);
    assert FiledBySome(schedules, s.log, f);
    var k :| 0 <= k < |s.log| && s.log[k].fate.Filed? && Files(schedules, s.log[k].prior, s.log[k].fate.readAt, f);
    i, u :| FilesFor(schedules, s.log[k].prior, s.log[k].fate.readAt, f, i, u);
    OwesOnlyOccurrences(schedules[i], s.log[k].prior, s.log[k].fate.readAt, u);
    UnreadIsUnowed(s.log, u);
  }

  /**
   A schedule that catches up has a job for the latest occurrence it missed before any pass: after the stamp
   that pass replaced and after its own creation, and out of the due window by the time the pass read.
   */
  lemma GapCaughtUp(c: Config, schedules: seq<Schedule>, s: State, n: nat, k: nat, i: nat, t: int)
    requires c.Valid() && Reachable(c, schedules, s, n) && 0 < k < |s.log| && s.log[k].fate.Filed?
    requires i < |schedules| && schedules[i].missed == Once
    requires LatestMissed(schedules[i], s.log[k - 1].at, s.log[k].fate.readAt, t)
    ensures Stored(s.jobs, Forwarded(KeyOf(schedules[i]), Slot(t)))
  {
    ReachableInv(c, schedules, s, n);
    assert ClaimOk(c, s.now, s.log, k);
    CatchUpFiled(schedules, i, s.log[k - 1].at, s.log[k].fate.readAt, t);
  }
}
