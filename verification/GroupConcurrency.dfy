/**
 Group concurrency across instances (`#fetch` and `#giveBack` in src/manager.ts): a fetch claims jobs,
 counts the group's active jobs once its claim has committed, and gives back what is over the limit.
 Fetches race in any order, and none of what is given back is refused.
 */
module GroupConcurrency {
  import opened Options
  import Sets

  datatype Config = Config(default: nat, tiers: map<string, nat>)

  /** `config.tiers?.[row.groupTier] ?? config.default` */
  function Limit(c: Config, tier: Option<string>): nat
  {
    if tier.Some? && tier.value in c.tiers then c.tiers[tier.value] else c.default
  }

  /** No tier's limit is larger. */
  ghost predicate IsLargest(c: Config, max: nat)
  {
    c.default <= max && forall tier | tier in c.tiers :: c.tiers[tier] <= max
  }

  datatype Job = Job(id: nat, group: Option<string>, tier: Option<string>)

  // ---- The decision ----------------------------------------------------------------------------

  function CountOf(active: map<string, nat>, group: Option<string>): nat
  {
    if group.Some? && group.value in active then active[group.value] else 0
  }

  datatype Decision = Decision(excess: set<nat>, left: map<string, nat>)

  /** From the end of the batch: a job over its limit goes back, and the group's count drops by one. */
  function Decide(c: Config, rows: seq<Job>, active: map<string, nat>): Decision
    decreases |rows|
  {
    if rows == [] then Decision({}, active)
    else
      var row, rest := rows[|rows| - 1], rows[..|rows| - 1];
      var count := CountOf(active, row.group);
      if count > Limit(c, row.tier) then
        var d := Decide(c, rest, active[row.group.value := count - 1]);
        d.(excess := d.excess + {row.id})
      else Decide(c, rest, active)
  }

  ghost predicate DistinctIds(rows: seq<Job>)
  {
    forall i, j | 0 <= i < j < |rows| :: rows[i].id != rows[j].id
  }

  /** The ids of a batch's jobs in one group. */
  function IdsIn(rows: seq<Job>, group: string): set<nat>
  {
    set i | 0 <= i < |rows| && rows[i].group == Some(group) :: rows[i].id
  }

  function Ids(rows: seq<Job>): set<nat>
  {
    set i | 0 <= i < |rows| :: rows[i].id
  }

  lemma IdsInLast(rows: seq<Job>, group: string)
    requires rows != []
    ensures var row, rest := rows[|rows| - 1], rows[..|rows| - 1];
      && IdsIn(rows, group) == IdsIn(rest, group) + (if row.group == Some(group) then {row.id} else {})
      && Ids(rows) == Ids(rest) + {row.id}
  {
    var n := |rows| - 1;
    assert rows == rows[..n] + [rows[n]];
    assert forall i | 0 <= i < n :: rows[..n][i] == rows[i];
  }

  lemma {:induction false} ExcessFromBatch(c: Config, rows: seq<Job>, active: map<string, nat>)
    ensures Decide(c, rows, active).excess <= Ids(rows)
    decreases |rows|
  {
    if rows != [] {
      var row, rest := rows[|rows| - 1], rows[..|rows| - 1];
      IdsInLast(rows, "");
      var count := CountOf(active, row.group);
      if count > Limit(c, row.tier) {
        ExcessFromBatch(c, rest, active[row.group.value := count - 1]);
      } else {
        ExcessFromBatch(c, rest, active);
      }
    }
  }

  /** The decision's count of a group, and the jobs of it that go back, add up to the count there was. */
  ghost predicate AddsUp(d: Decision, rows: seq<Job>, active: map<string, nat>, group: string)
  {
    CountOf(d.left, Some(group)) + |d.excess * IdsIn(rows, group)| == CountOf(active, Some(group))
  }

  lemma GivenBackAddsUp(d: Decision, rows: seq<Job>, active: map<string, nat>, group: string)
    requires rows != [] && DistinctIds(rows) && d.excess <= Ids(rows[..|rows| - 1])
    requires rows[|rows| - 1].group.Some? && CountOf(active, rows[|rows| - 1].group) > 0
    requires var row := rows[|rows| - 1];
      AddsUp(d, rows[..|rows| - 1], active[row.group.value := CountOf(active, row.group) - 1], group)
    ensures AddsUp(d.(excess := d.excess + {rows[|rows| - 1].id}), rows, active, group)
  {
    LastGivenBack(rows, group, d.excess);
  }

  /** Each job given back takes one off its group's count. */
  lemma {:induction false} DecisionCount(c: Config, rows: seq<Job>, active: map<string, nat>, group: string)
    requires DistinctIds(rows)
    ensures AddsUp(Decide(c, rows, active), rows, active, group)
    decreases |rows|
  {
    if rows == [] {
      assert Decide(c, rows, active).excess * IdsIn(rows, group) == {};
    } else {
      var row, rest := rows[|rows| - 1], rows[..|rows| - 1];
      var count := CountOf(active, row.group);
      LastIsNew(rows);
      if count > Limit(c, row.tier) {
        var less := active[row.group.value := count - 1];
        DecisionCount(c, rest, less, group);
        ExcessFromBatch(c, rest, less);
        GivenBackAddsUp(Decide(c, rest, less), rows, active, group);
      } else {
        DecisionCount(c, rest, active, group);
        ExcessFromBatch(c, rest, active);
        LastKept(rows, group, Decide(c, rest, active).excess);
      }
    }
  }

  lemma LastGivenBack(rows: seq<Job>, group: string, excess: set<nat>)
    requires rows != [] && DistinctIds(rows) && excess <= Ids(rows[..|rows| - 1])
    ensures var row, rest := rows[|rows| - 1], rows[..|rows| - 1];
      |(excess + {row.id}) * IdsIn(rows, group)| == |excess * IdsIn(rest, group)| + if row.group == Some(group) then 1
          else 0
  {
    IdsInLast(rows, group);
    LastIsNew(rows);
    var row, rest := rows[|rows| - 1], rows[..|rows| - 1];
    OneMoreBack(excess, IdsIn(rest, group), Ids(rest), row.id, row.group == Some(group));
  }

  lemma LastKept(rows: seq<Job>, group: string, excess: set<nat>)
    requires rows != [] && DistinctIds(rows) && excess <= Ids(rows[..|rows| - 1])
    ensures excess * IdsIn(rows, group) == excess * IdsIn(rows[..|rows| - 1], group)
  {
    IdsInLast(rows, group);
    LastIsNew(rows);
  }

  lemma LastIsNew(rows: seq<Job>)
    requires rows != [] && DistinctIds(rows)
    ensures rows[|rows| - 1].id !in Ids(rows[..|rows| - 1]) && DistinctIds(rows[..|rows| - 1])
  {
  }

  lemma OneMoreBack(excess: set<nat>, inGroup: set<nat>, all: set<nat>, id: nat, grouped: bool)
    requires excess <= all && inGroup <= all && id !in all
    ensures |(excess + {id}) * (inGroup + if grouped then {id} else {})| == |excess * inGroup| + if grouped then 1
        else 0
  {
    assert (excess + {id}) * (inGroup + if grouped then {id} else {}) == excess * inGroup + if grouped then {id}
        else {};
  }

  lemma {:induction false} CountNeverRises(c: Config, rows: seq<Job>, active: map<string, nat>, group: string)
    ensures CountOf(Decide(c, rows, active).left, Some(group)) <= CountOf(active, Some(group))
    decreases |rows|
  {
    if rows != [] {
      var row, rest := rows[|rows| - 1], rows[..|rows| - 1];
      var count := CountOf(active, row.group);
      if count > Limit(c, row.tier) {
        CountNeverRises(c, rest, active[row.group.value := count - 1], group);
      } else {
        CountNeverRises(c, rest, active, group);
      }
    }
  }

  /** And what is left is within the limit of every job that is kept. */
  lemma {:induction false} KeptWithinLimit(c: Config, rows: seq<Job>, active: map<string, nat>, i: nat)
    requires DistinctIds(rows) && i < |rows| && rows[i].group.Some? && rows[i].id !in Decide(c, rows, active).excess
    ensures CountOf(Decide(c, rows, active).left, rows[i].group) <= Limit(c, rows[i].tier)
    decreases |rows|
  {
    var row, rest := rows[|rows| - 1], rows[..|rows| - 1];
    var count := CountOf(active, row.group);
    if i == |rows| - 1 {
      CountNeverRises(c, rest, active, row.group.value);
    } else {
      assert rest[i] == rows[i];
      KeptWithinLimit(c, rest, if count > Limit(c, row.tier) then active[row.group.value := count - 1] else active, i);
    }
  }

  /** The later jobs of the batch in the same group that go back. */
  function BackAfter(rows: seq<Job>, i: nat, back: set<nat>): set<nat>
    requires i < |rows|
  {
    set j | i < j < |rows| && rows[j].group == rows[i].group && rows[j].id in back :: rows[j].id
  }

  /** A job goes back exactly when its group, less the later jobs of it that go back, is over the job's limit. */
  ghost predicate BackIff(c: Config, rows: seq<Job>, counts: map<string, nat>, i: nat, back: set<nat>)
    requires i < |rows|
  {
    rows[i].id in back <==>
      rows[i].group.Some? && CountOf(counts, rows[i].group) - |BackAfter(rows, i, back)| > Limit(c, rows[i].tier)
  }

  lemma BackAfterLast(rows: seq<Job>, i: nat, back: set<nat>)
    requires DistinctIds(rows) && i < |rows| - 1 && back <= Ids(rows[..|rows| - 1])
    ensures var row, rest := rows[|rows| - 1], rows[..|rows| - 1];
      && BackAfter(rows, i, back) == BackAfter(rest, i, back)
      && BackAfter(rows, i, back + {row.id}) ==
          BackAfter(rest, i, back) + (if row.group == rows[i].group then {row.id} else {})
      && row.id !in BackAfter(rest, i, back)
  {
    var n := |rows| - 1;
    var row, rest := rows[n], rows[..n];
    LastIsNew(rows);
    assert forall j | 0 <= j < n :: rest[j] == rows[j] && rows[j].id != row.id;
    assert BackAfter(rows, i, back) == BackAfter(rest, i, back);
    assert BackAfter(rows, i, back + {row.id}) ==
        BackAfter(rest, i, back) + if row.group == rows[i].group then {row.id} else {};
  }

  lemma GivenBackBefore(c: Config, rows: seq<Job>, active: map<string, nat>, i: nat, back: set<nat>)
    requires DistinctIds(rows) && i < |rows| - 1 && back <= Ids(rows[..|rows| - 1])
    requires rows[|rows| - 1].group.Some? && CountOf(active, rows[|rows| - 1].group) > 0
    requires var row := rows[|rows| - 1];
      BackIff(c, rows[..|rows| - 1], active[row.group.value := CountOf(active, row.group) - 1], i, back)
    ensures BackIff(c, rows, active, i, back + {rows[|rows| - 1].id})
  {
    BackAfterLast(rows, i, back);
    assert rows[..|rows| - 1][i] == rows[i];
  }

  lemma KeptBefore(c: Config, rows: seq<Job>, active: map<string, nat>, i: nat, back: set<nat>)
    requires DistinctIds(rows) && i < |rows| - 1 && back <= Ids(rows[..|rows| - 1])
    requires BackIff(c, rows[..|rows| - 1], active, i, back)
    ensures BackIff(c, rows, active, i, back)
  {
    BackAfterLast(rows, i, back);
    assert rows[..|rows| - 1][i] == rows[i];
  }

  /** The decision gives back what is over the limit, and nothing else. */
  lemma {:induction false} DecisionExact(c: Config, rows: seq<Job>, active: map<string, nat>, i: nat)
    requires DistinctIds(rows) && i < |rows|
    ensures BackIff(c, rows, active, i, Decide(c, rows, active).excess)
    decreases |rows|
  {
    var row, rest := rows[|rows| - 1], rows[..|rows| - 1];
    var count := CountOf(active, row.group);
    LastIsNew(rows);
    if count > Limit(c, row.tier) {
      var less := active[row.group.value := count - 1];
      ExcessFromBatch(c, rest, less);
      if i < |rest| {
        DecisionExact(c, rest, less, i);
        GivenBackBefore(c, rows, active, i, Decide(c, rest, less).excess);
      } else {
        assert BackAfter(rows, i, Decide(c, rows, active).excess) == {};
      }
    } else {
      ExcessFromBatch(c, rest, active);
      if i < |rest| {
        DecisionExact(c, rest, active, i);
        KeptBefore(c, rows, active, i, Decide(c, rest, active).excess);
      } else {
        assert BackAfter(rows, i, Decide(c, rows, active).excess) == {};
      }
    }
  }

  /** In particular, a batch whose groups are within the limit of each of its jobs gives nothing back. */
  lemma NothingBack(c: Config, rows: seq<Job>, active: map<string, nat>)
    requires DistinctIds(rows)
    requires forall row | row in rows && row.group.Some? :: CountOf(active, row.group) <= Limit(c, row.tier)
    ensures Decide(c, rows, active).excess == {}
  {
    var back := Decide(c, rows, active).excess;
    ExcessFromBatch(c, rows, active);
    forall i | 0 <= i < |rows| ensures rows[i].id !in back {
      DecisionExact(c, rows, active, i);
      assert rows[i] in rows;
    }
  }

  /** The loop over the batch in reverse. */
  method DecideExcess(c: Config, rows: seq<Job>, counts: map<string, nat>) returns (excessIds: set<nat>)
    ensures excessIds == Decide(c, rows, counts).excess && excessIds <= Ids(rows)
    ensures DistinctIds(rows) ==> forall i | 0 <= i < |rows| :: BackIff(c, rows, counts, i, excessIds)
  {
    excessIds := {};
    var active: map<string, nat> := counts;
    var i := |rows|;
    assert rows[..i] == rows;
    while i > 0
      invariant 0 <= i <= |rows|
      invariant Decide(c, rows, counts).excess == Decide(c, rows[..i], active).excess + excessIds
    {
      var row := rows[i - 1];
      assert rows[..i][..i - 1] == rows[..i - 1];
      var count := CountOf(active, row.group);
      if count > Limit(c, row.tier) {
        excessIds := excessIds + {row.id};
        active := active[row.group.value := count - 1];
      }
      i := i - 1;
    }
    assert rows[..0] == [];
    ExcessFromBatch(c, rows, counts);
    if DistinctIds(rows) {
      forall i | 0 <= i < |rows| ensures BackIff(c, rows, counts, i, excessIds) {
        DecisionExact(c, rows, counts, i);
      }
    }
  }

  // ---- Racing fetches --------------------------------------------------------------------------

  /** Where a job is. In all but the first and the last the database has it as `active`. */
  datatype Place = Queued | Claimed(fetch: nat) | Returning(fetch: nat) | Running | Gone

  /** `fetches` holds the batch of every fetch that has claimed and not yet counted. */
  datatype State = State(places: map<nat, Place>, fetches: map<nat, seq<Job>>)

  datatype Step =
    | Claim(fetch: nat, rows: seq<Job>)
    | Count(fetch: nat)
    | GiveBack(fetch: nat)
    | Finish(id: nat)
    | Requeue(id: nat)  // a running or failed job goes back to its queue, to be retried

  /** `jobs` names every job there is, with its group. */
  function ActiveIn(jobs: map<nat, Job>, s: State, group: string): set<nat>
  {
    set id | id in jobs && id in s.places && jobs[id].group == Some(group) && s.places[id] != Queued
        && s.places[id] != Gone
  }

  function RunningIn(jobs: map<nat, Job>, s: State, group: string): set<nat>
  {
    set id | id in jobs && id in s.places && jobs[id].group == Some(group) && s.places[id] == Running
  }

  /** `getActiveGroupCounts` for the groups of a batch. */
  function Counts(jobs: map<nat, Job>, s: State, rows: seq<Job>): map<string, nat>
  {
    map row | row in rows && row.group.Some? :: row.group.value := |ActiveIn(jobs, s, row.group.value)|
  }

  predicate Enabled(jobs: map<nat, Job>, s: State, step: Step)
  {
    match step
    case Claim(f, rows) =>
      && f !in s.fetches
      && (forall id | id in s.places :: s.places[id] != Returning(f))
      && (forall i | 0 <= i < |rows| ::
          rows[i].id in jobs && jobs[rows[i].id] == rows[i] && rows[i].id in s.places
          && s.places[rows[i].id] == Queued)
      && (forall i, j | 0 <= i < j < |rows| :: rows[i].id != rows[j].id)
    case Count(f) => f in s.fetches
    case GiveBack(f) => f !in s.fetches
    case Finish(id) => id in s.places && s.places[id] == Running
    case Requeue(id) => id in s.places && (s.places[id] == Running || s.places[id] == Gone)
  }

  function Excess(c: Config, jobs: map<nat, Job>, s: State, f: nat): set<nat>
    requires f in s.fetches
  {
    Decide(c, s.fetches[f], Counts(jobs, s, s.fetches[f])).excess
  }

  function Apply(c: Config, jobs: map<nat, Job>, s: State, step: Step): State
    requires Enabled(jobs, s, step)
  {
    match step
    case Claim(f, rows) =>
      State(map id | id in s.places :: if id in Ids(rows) then Claimed(f) else s.places[id], s.fetches[f := rows])
    case Count(f) =>
      var excess := Excess(c, jobs, s, f);
      State(map id | id in s.places ::
              if id !in Ids(s.fetches[f]) then s.places[id] else if id in excess then Returning(f) else Running,
            s.fetches - {f})
    case GiveBack(f) => s.(places := map id | id in s.places :: if s.places[id] == Returning(f) then Queued
        else s.places[id])
    case Finish(id) => s.(places := s.places[id := Gone])
    case Requeue(id) => s.(places := s.places[id := Queued])
  }

  ghost predicate Inv(jobs: map<nat, Job>, s: State)
  {
    forall f | f in s.fetches :: BatchOk(jobs, s, f)
  }

  /** The jobs of a batch that has not been counted are still where its claim put them. */
  ghost predicate BatchOk(jobs: map<nat, Job>, s: State, f: nat)
    requires f in s.fetches
  {
    && DistinctIds(s.fetches[f])
    && forall i | 0 <= i < |s.fetches[f]| ::
         var row := s.fetches[f][i];
             row.id in jobs && jobs[row.id] == row && row.id in s.places
             && s.places[row.id] == Claimed(f)
  }

  function Init(jobs: map<nat, Job>): State
  {
    State(map id | id in jobs :: Queued, map[])
  }

  ghost predicate Reachable(c: Config, jobs: map<nat, Job>, s: State, n: nat)
    decreases n
  {
    if n == 0 then s == Init(jobs) else exists p, step :: Reachable(c, jobs, p, n - 1) && Leads(c, jobs, p, step, s)
  }

  ghost predicate Leads(c: Config, jobs: map<nat, Job>, p: State, step: Step, s: State)
  {
    Enabled(jobs, p, step) && s == Apply(c, jobs, p, step)
  }

  lemma NextInv(c: Config, jobs: map<nat, Job>, s: State, step: Step)
    requires Inv(jobs, s) && Enabled(jobs, s, step)
    ensures Inv(jobs, Apply(c, jobs, s, step))
  {
    var s' := Apply(c, jobs, s, step);
    forall f | f in s'.fetches ensures BatchOk(jobs, s', f) {
      if f in s.fetches {
        assert BatchOk(jobs, s, f);
      }
    }
  }

  lemma {:induction false} ReachableInv(c: Config, jobs: map<nat, Job>, s: State, n: nat)
    requires Reachable(c, jobs, s, n)
    ensures Inv(jobs, s)
    decreases n
  {
    if n > 0 {
      var p, step :| Reachable(c, jobs, p, n - 1) && Leads(c, jobs, p, step, s);
      ReachableInv(c, jobs, p, n - 1);
      NextInv(c, jobs, p, step);
    }
  }

  /** The jobs a count leaves running in a group are active, and not given back. */
  lemma RunningIsCounted(c: Config, jobs: map<nat, Job>, s: State, f: nat, group: string)
    requires f in s.fetches && BatchOk(jobs, s, f)
    ensures var back := Excess(c, jobs, s, f) * IdsIn(s.fetches[f], group);
      && back <= ActiveIn(jobs, s, group)
      && RunningIn(jobs, Apply(c, jobs, s, Count(f)), group) <= ActiveIn(jobs, s, group) - back
  {
    var rows := s.fetches[f];
    assert forall id | id in Ids(rows) :: id in jobs && id in s.places && s.places[id] == Claimed(f);
    forall id | id in IdsIn(rows, group) ensures id in ActiveIn(jobs, s, group) && id in Ids(rows) {
      var i :| 0 <= i < |rows| && rows[i].group == Some(group) && rows[i].id == id;
    }
  }

  /**
   When a fetch decides, over any interleaving of claims, counts and returns: the group's running jobs,
   with the ones it keeps, are within the limit of every job it keeps.
   */
  lemma KeptWithinEveryLimit(c: Config, jobs: map<nat, Job>, s: State, n: nat, f: nat, i: nat, group: string)
    requires Reachable(c, jobs, s, n) && f in s.fetches
    requires i < |s.fetches[f]| && s.fetches[f][i].group == Some(group) && s.fetches[f][i].id !in Excess(c, jobs, s, f)
    ensures |RunningIn(jobs, Apply(c, jobs, s, Count(f)), group)| <= Limit(c, s.fetches[f][i].tier)
  {
    ReachableInv(c, jobs, s, n);
    assert BatchOk(jobs, s, f);
    var rows := s.fetches[f];
    var counts := Counts(jobs, s, rows);
    CountedAll(jobs, s, rows, i, group);
    DecisionCount(c, rows, counts, group);
    KeptWithinLimit(c, rows, counts, i);
    RunningIsCounted(c, jobs, s, f, group);
    SizesAddUp(ActiveIn(jobs, s, group), Excess(c, jobs, s, f) * IdsIn(rows, group),
        RunningIn(jobs, Apply(c, jobs, s, Count(f)), group));
  }

  /** The group's jobs the database has as `active`: claimed, running, or claimed and on their way back. */
  ghost function TakenIn(jobs: map<nat, Job>, s: State, group: string): set<nat>
  {
    set id | id in jobs && id in s.places && jobs[id].group == Some(group)
        && (s.places[id].Claimed? || s.places[id].Returning? || s.places[id].Running?)
  }

  /**
   And nothing is given back that need not be: in any run, a fetch that finds every group of its batch within
   the limit of each of its jobs keeps them all, and they run.
   */
  lemma NothingBackWithinLimits(c: Config, jobs: map<nat, Job>, s: State, n: nat, f: nat)
    requires Reachable(c, jobs, s, n) && f in s.fetches
    requires forall row | row in s.fetches[f] && row.group.Some? ::
        |TakenIn(jobs, s, row.group.value)| <= Limit(c, row.tier)
    ensures forall row | row in s.fetches[f] ::
        row.id in s.places && Apply(c, jobs, s, Count(f)).places[row.id] == Running
  {
    ReachableInv(c, jobs, s, n);
    assert BatchOk(jobs, s, f);
    var rows := s.fetches[f];
    forall row | row in rows && row.group.Some? ensures CountOf(Counts(jobs, s, rows), row.group) <= Limit(c, row.tier) {
      var i :| 0 <= i < |rows| && rows[i] == row;
      CountedAll(jobs, s, rows, i, row.group.value);
      ActiveIsTaken(jobs, s, row.group.value);
    }
    NothingBack(c, rows, Counts(jobs, s, rows));
    forall row | row in rows
      ensures row.id in s.places && Apply(c, jobs, s, Count(f)).places[row.id] == Running
    {
      var i :| 0 <= i < |rows| && rows[i] == row;
      assert row.id in Ids(rows);
    }
  }

  lemma ActiveIsTaken(jobs: map<nat, Job>, s: State, group: string)
    ensures ActiveIn(jobs, s, group) == TakenIn(jobs, s, group)
  {
  }

  lemma SizesAddUp(active: set<nat>, back: set<nat>, running: set<nat>)
    requires back <= active && running <= active - back
    ensures |running| + |back| <= |active|
  {
    Sets.SubsetSize(running, active - back);
    assert (active - back) + back == active;
  }

  lemma CountedAll(jobs: map<nat, Job>, s: State, rows: seq<Job>, i: nat, group: string)
    requires i < |rows| && rows[i].group == Some(group)
    ensures CountOf(Counts(jobs, s, rows), Some(group)) == |ActiveIn(jobs, s, group)|
  {
    assert rows[i] in rows;
  }

  /** So a group never has more jobs running than its largest limit. */
  lemma {:induction false} RunningWithinLargest(c: Config, jobs: map<nat, Job>, s: State, n: nat, group: string,
      max: nat)
    requires Reachable(c, jobs, s, n) && IsLargest(c, max)
    ensures |RunningIn(jobs, s, group)| <= max
    decreases n
  {
    if n == 0 {
      assert RunningIn(jobs, s, group) == {};
    } else {
      var p, step :| Reachable(c, jobs, p, n - 1) && Leads(c, jobs, p, step, s);
      RunningWithinLargest(c, jobs, p, n - 1, group, max);
      if step.Count? {
        CountRunning(c, jobs, p, n - 1, step.fetch, group, max);
      } else {
        if step.Claim? {
          assert forall id | id in Ids(step.rows) :: id in p.places && p.places[id] == Queued;
        }
        Sets.SubsetSize(RunningIn(jobs, s, group), RunningIn(jobs, p, group));
      }
    }
  }

  lemma CountRunning(c: Config, jobs: map<nat, Job>, p: State, n: nat, f: nat, group: string, max: nat)
    requires Reachable(c, jobs, p, n) && f in p.fetches && IsLargest(c, max) && |RunningIn(jobs, p, group)| <= max
    ensures |RunningIn(jobs, Apply(c, jobs, p, Count(f)), group)| <= max
  {
    var rows := p.fetches[f];
    if i :| 0 <= i < |rows| && rows[i].group == Some(group) && rows[i].id !in Excess(c, jobs, p, f) {
      KeptWithinEveryLimit(c, jobs, p, n, f, i, group);
    } else {
      ReachableInv(c, jobs, p, n);
      assert BatchOk(jobs, p, f);
      Sets.SubsetSize(RunningIn(jobs, Apply(c, jobs, p, Count(f)), group), RunningIn(jobs, p, group));
    }
  }

  // ---- No job is stranded ----------------------------------------------------------------------

  /** A claimed job is in the batch of a fetch that will count it; one to be given back is of a fetch that has. */
  ghost predicate PlaceOk(s: State, id: nat)
    requires id in s.places
  {
    match s.places[id]
    case Claimed(f) => f in s.fetches && id in Ids(s.fetches[f])
    case Returning(f) => f !in s.fetches
    case _ => true
  }

  ghost predicate Tracked(s: State)
  {
    forall id {:trigger PlaceOk(s, id)} | id in s.places :: PlaceOk(s, id)
  }

  lemma NextTracked(c: Config, jobs: map<nat, Job>, s: State, step: Step)
    requires Tracked(s) && Enabled(jobs, s, step)
    ensures Tracked(Apply(c, jobs, s, step))
  {
    var s' := Apply(c, jobs, s, step);
    forall id | id in s'.places ensures PlaceOk(s', id) {
      assert PlaceOk(s, id);
    }
  }

  lemma {:induction false} ReachableTracked(c: Config, jobs: map<nat, Job>, s: State, n: nat)
    requires Reachable(c, jobs, s, n)
    ensures Tracked(s) && s.places.Keys == jobs.Keys
    decreases n
  {
    if n > 0 {
      var p, step :| Reachable(c, jobs, p, n - 1) && Leads(c, jobs, p, step, s);
      ReachableTracked(c, jobs, p, n - 1);
      NextTracked(c, jobs, p, step);
    }
  }

  /**
   Over any run, every job there is stays in the table, and each that is neither queued nor gone has a step
   ahead of it: a claimed one is counted, and then runs unless it is over the limit; one to be given back goes
   back to its queue; one that runs may finish, and it or one that has may be queued again.
   */
  lemma NoJobStranded(c: Config, jobs: map<nat, Job>, s: State, n: nat, id: nat)
    requires Reachable(c, jobs, s, n) && id in jobs
    ensures id in s.places
    ensures match s.places[id]
      case Claimed(f) => Enabled(jobs, s, Count(f)) && id in Apply(c, jobs, s, Count(f)).places
        && Apply(c, jobs, s, Count(f)).places[id] == if id in Excess(c, jobs, s, f) then Returning(f) else Running
      case Returning(f) => Enabled(jobs, s, GiveBack(f)) && id in Apply(c, jobs, s, GiveBack(f)).places
        && Apply(c, jobs, s, GiveBack(f)).places[id] == Queued
      case Running => Enabled(jobs, s, Finish(id)) && Apply(c, jobs, s, Finish(id)).places[id] == Gone
        && Enabled(jobs, s, Requeue(id)) && Apply(c, jobs, s, Requeue(id)).places[id] == Queued
      case Gone => Enabled(jobs, s, Requeue(id)) && Apply(c, jobs, s, Requeue(id)).places[id] == Queued
      case Queued => true
  {
    ReachableTracked(c, jobs, s, n);
    assert PlaceOk(s, id);
  }
}
