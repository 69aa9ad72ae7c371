/**
 What the passes of a run file, put together: while they are unbroken, one job for every slot with an
 occurrence, and nothing else.
 */
module CronCoverage {
  import opened Options
  import opened Names
  import opened CronPass
  import opened CronRun

  // ---- From spacing to coverage ----------------------------------------------------------------

  /** Claims `first` to `last` all ran their pass, and each after `first` was made by a deployment never left empty. */
  ghost predicate Unbroken(log: seq<Claim>, first: nat, last: nat)
  {
    && first <= last < |log|
    && (forall k | first <= k <= last :: log[k].fate.Filed?)
    && (forall k | first < k <= last :: log[k].attended)
  }

  /** Passes read the clock in the order of their claims, and never a window or more apart. */
  lemma ConsecutiveReads(c: Config, now: int, row: Option<int>, log: seq<Claim>, k: nat)
    requires c.Valid() && LogOk(c, now, row, log) && 0 < k < |log|
    requires log[k - 1].fate.Filed? && log[k].fate.Filed?
    ensures log[k - 1].fate.readAt < log[k].fate.readAt
    ensures c.WindowsMeet() && log[k].attended ==> log[k].fate.readAt <= log[k - 1].fate.readAt + WINDOW
  {
    assert ClaimOk(c, now, log, k - 1) && ClaimOk(c, now, log, k);
  }

  /** So every instant between the first read and the last is in the due window of the first pass to reach it. */
  lemma {:induction false} InstantIsDue(c: Config, now: int, row: Option<int>, log: seq<Claim>, first: nat, last: nat,
      t: int)
    returns (k: nat)
    requires c.Valid() && c.WindowsMeet() && LogOk(c, now, row, log) && Unbroken(log, first, last)
    requires log[first].fate.readAt < t <= log[last].fate.readAt
    ensures first < k <= last
    ensures log[k].fate.Filed? && log[k - 1].fate.Filed?
        && log[k - 1].fate.readAt < t <= log[k].fate.readAt < t + WINDOW
    decreases last
  {
    ConsecutiveReads(c, now, row, log, last);
    if t <= log[last - 1].fate.readAt {
      k := InstantIsDue(c, now, row, log, first, last - 1, t);
    } else {
      k := last;
    }
  }

  /**
   The protocol's promise, over any run: while the passes are unbroken, every occurrence of a rule or of a
   cron expression between the first read and the last has a job of its schedule in its slot.
   */
  lemma EveryOccurrenceStored(c: Config, schedules: seq<Schedule>, s: State, n: nat, first: nat, last: nat, i: nat,
      t: int)
    requires c.Valid() && c.WindowsMeet() && Reachable(c, schedules, s, n)
    requires Unbroken(s.log, first, last) && s.log[first].fate.readAt < t <= s.log[last].fate.readAt
    requires i < |schedules| && Occurs(schedules[i].expression, t)
    ensures Stored(s.jobs, Forwarded(KeyOf(schedules[i]), Slot(t)))
  {
    ReachableInv(c, schedules, s, n);
    OccurrenceStored(c, schedules, s.now, s.row, s.log, s.jobs, first, last, i, t);
  }

  lemma OccurrenceStored(c: Config, schedules: seq<Schedule>, now: int, row: Option<int>, log: seq<Claim>,
      jobs: seq<StoredJob>,
                         first: nat, last: nat, i: nat, t: int)
    requires c.Valid() && c.WindowsMeet() && LogOk(c, now, row, log) && JobsOk(schedules, log, jobs)
    requires Unbroken(log, first, last) && log[first].fate.readAt < t <= log[last].fate.readAt
    requires i < |schedules| && Occurs(schedules[i].expression, t)
    ensures Stored(jobs, Forwarded(KeyOf(schedules[i]), Slot(t)))
  {
    var k := first;
    if schedules[i].expression.Cron? {
      var f := FirstOfSlot(schedules[i].expression, t);
      if f > log[first].fate.readAt {
        k := InstantIsDue(c, now, row, log, first, last, f);
      }
      CronSlotFiled(schedules, i, log[k].prior, log[k].fate.readAt, f);
    } else {
      k := InstantIsDue(c, now, row, log, first, last, t);
      RuleOccurrenceFiled(schedules, i, log[k].prior, log[k].fate.readAt, t);
    }
    FiledIsStored(schedules, log, jobs, k, i, t);
  }

  lemma FiledIsStored(schedules: seq<Schedule>, log: seq<Claim>, jobs: seq<StoredJob>, k: nat, i: nat, t: int)
    requires JobsOk(schedules, log, jobs) && k < |log| && log[k].fate.Filed? && i < |schedules|
    requires Files(schedules, log[k].prior, log[k].fate.readAt, Forwarded(KeyOf(schedules[i]), Slot(t)))
    ensures Stored(jobs, Forwarded(KeyOf(schedules[i]), Slot(t)))
  {
  }

  /** And one job only: no two uncancelled jobs of one schedule share a slot, and no two schedules share a job. */
  lemma OneJobPerScheduleAndSlot(c: Config, schedules: seq<Schedule>, s: State, n: nat, i: nat, j: nat, a: nat, b: nat)
    requires c.Valid() && Reachable(c, schedules, s, n)
    requires i < |schedules| && j < |schedules| && a < |s.jobs| && b < |s.jobs|
    requires LegalName(schedules[i].name) && LegalName(schedules[j].name)
    requires s.jobs[a].key == KeyOf(schedules[i]) && s.jobs[b].key == KeyOf(schedules[j])
    requires !s.jobs[a].cancelled && !s.jobs[b].cancelled
    ensures a == b ==> schedules[i].name == schedules[j].name && schedules[i].key == schedules[j].key
    ensures a != b && i == j ==> s.jobs[a].slot != s.jobs[b].slot
  {
    ReachableInv(c, schedules, s, n);
    if a == b {
      OccurrenceKeyInjective(schedules[i].name, schedules[i].key, schedules[j].name, schedules[j].key);
    } else if a < b {
      assert s.jobs[a].key != s.jobs[b].key || s.jobs[a].slot != s.jobs[b].slot;
    } else {
      assert s.jobs[b].key != s.jobs[a].key || s.jobs[b].slot != s.jobs[a].slot;
    }
  }

  /** Nothing else is in the table: every job stands for an occurrence a pass owed, in that occurrence's slot. */
  lemma NothingElseStored(c: Config, schedules: seq<Schedule>, s: State, n: nat, job: StoredJob)
    returns (i: nat, t: int, k: nat)
    requires c.Valid() && Reachable(c, schedules, s, n) && job in s.jobs
    ensures i < |schedules| && k < |s.log| && s.log[k].fate.Filed?
    ensures job.key == KeyOf(schedules[i]) && job.slot == Slot(t) && Occurs(schedules[i].expression, t)
    ensures t <= s.log[k].fate.readAt
    ensures t <= s.log[k].fate.readAt - WINDOW ==>
      schedules[i].missed == Once && (schedules[i].createdOn.Some? ==> t > schedules[i].createdOn.value)
  {
    ReachableInv(c, schedules, s, n);
    assert FiledBySome(schedules, s.log, Forwarded(job.key, job.slot));
    k :| 0 <= k < |s.log| && s.log[k].fate.Filed?
        && Files(schedules, s.log[k].prior, s.log[k].fate.readAt, Forwarded(job.key, job.slot));
    i, t :| FilesFor(schedules, s.log[k].prior, s.log[k].fate.readAt, Forwarded(job.key, job.slot), i, t);
    OwesOnlyOccurrences(schedules[i], s.log[k].prior, s.log[k].fate.readAt, t);
  }
}
