/**
 The rows an accepted flow turns into (`#flow` in src/manager.ts): each job's count of dependencies and
 its flags, and the dependency rows between them.
 */
module FlowRows {
  import opened FlowGraph
  import opened JobStates

  /** The primary key of a job: its queue and its id. */
  datatype Key = Key(queue: string, id: string)

  datatype Job = Job(state: JobState, blocked: bool, blocking: bool, pending: nat)

  /** A row of job_dependency. */
  datatype Dep = Dep(child: Key, parent: Key)

  /** `keys` gives every job of the flow a key in its own queue: `refToId` and the job it came from. */
  ghost predicate Keyed(jobs: seq<FlowJob>, keys: map<string, Key>)
  {
    forall j | j in jobs :: j.ref in keys && keys[j.ref].queue == j.name
  }

  ghost predicate DistinctKeys(keys: map<string, Key>)
  {
    forall a, b | a in keys && b in keys && keys[a] == keys[b] :: a == b
  }

  /** Every dependency names a job of the flow, as `validateFlowJobs` has seen to. */
  ghost predicate DependsInside(jobs: seq<FlowJob>, keys: map<string, Key>)
  {
    forall c, ref | c in jobs && ref in c.dependsOn :: ref in keys
  }

  /** What `#flow` writes for one job: a count of its distinct dependencies, and whether others name it. */
  ghost predicate IsRow(jobs: seq<FlowJob>, job: FlowJob, row: Job)
  {
    && row.state == Created
    && row.pending == |Elements(job.dependsOn)|
    && (row.blocked <==> job.dependsOn != [])
    && (row.blocking <==> IsParent(jobs, job.ref))
  }

  ghost predicate IsParent(jobs: seq<FlowJob>, ref: string)
  {
    exists j :: j in jobs && ref in j.dependsOn
  }

  ghost predicate RowsOf(jobs: seq<FlowJob>, keys: map<string, Key>, rows: seq<(Key, Job)>)
    requires Keyed(jobs, keys)
  {
    |rows| == |jobs| && forall i | 0 <= i < |jobs| :: rows[i].0 == keys[jobs[i].ref] && IsRow(jobs, jobs[i], rows[i].1)
  }

  ghost predicate DepsOf(jobs: seq<FlowJob>, keys: map<string, Key>, deps: set<Dep>)
    requires Keyed(jobs, keys) && DependsInside(jobs, keys)
  {
    forall d :: d in deps <==> exists c, ref :: c in jobs && ref in c.dependsOn && d == Dep(keys[c.ref], keys[ref])
  }

  /** An entry that repeats is one dependency: `[...new Set(dependsOn)]`. */
  method Dedupe(deps: seq<string>) returns (unique: seq<string>)
    ensures Distinct(unique) && Elements(unique) == Elements(deps) && |unique| == |Elements(deps)|
  {
    unique := [];
    for i := 0 to |deps|
      invariant Distinct(unique) && forall x :: x in unique <==> x in deps[..i]
    {
      if deps[i] !in unique {
        unique := unique + [deps[i]];
      }
    }
    assert Elements(unique) == Elements(deps);
    DistinctSize(unique);
  }

  /** The key each ref stands for. `ids` holds the ids given or drawn for the jobs. */
  method AssignKeys(jobs: seq<FlowJob>, ids: map<string, string>) returns (keys: map<string, Key>)
    requires DistinctRefs(jobs) && forall j | j in jobs :: j.ref in ids
    ensures Keyed(jobs, keys) && keys.Keys == Refs(jobs) && forall ref | ref in keys :: keys[ref].id == ids[ref]
  {
    keys := map[];
    for i := 0 to |jobs|
      invariant keys.Keys == set k | 0 <= k < i :: jobs[k].ref
      invariant forall k | 0 <= k < i :: keys[jobs[k].ref].queue == jobs[k].name
      invariant forall ref | ref in keys :: ref in ids && keys[ref].id == ids[ref]
    {
      assert jobs[i] in jobs;
      keys := keys[jobs[i].ref := Key(jobs[i].name, ids[jobs[i].ref])];
    }
  }

  /** The dependency rows of one job. */
  function JobDeps(keys: map<string, Key>, c: FlowJob): set<Dep>
    requires c.ref in keys && forall ref | ref in c.dependsOn :: ref in keys
  {
    set ref | ref in c.dependsOn :: Dep(keys[c.ref], keys[ref])
  }

  function DepsUpTo(jobs: seq<FlowJob>, keys: map<string, Key>, n: nat): set<Dep>
    requires Keyed(jobs, keys) && DependsInside(jobs, keys) && n <= |jobs|
  {
    if n == 0 then {} else DepsUpTo(jobs, keys, n - 1) + JobDeps(keys, jobs[n - 1])
  }

  function RefsUpTo(jobs: seq<FlowJob>, n: nat): set<string>
    requires n <= |jobs|
  {
    if n == 0 then {} else RefsUpTo(jobs, n - 1) + Elements(jobs[n - 1].dependsOn)
  }

  lemma {:induction false} UpTo(jobs: seq<FlowJob>, keys: map<string, Key>, n: nat)
    requires Keyed(jobs, keys) && DependsInside(jobs, keys) && n <= |jobs|
    ensures forall d :: d in DepsUpTo(jobs, keys, n) <==> exists k, ref ::
        0 <= k < n && ref in jobs[k].dependsOn
        && d == Dep(keys[jobs[k].ref], keys[ref])
    ensures forall ref :: ref in RefsUpTo(jobs, n) <==> exists k :: 0 <= k < n && ref in jobs[k].dependsOn
  {
    if n > 0 {
      UpTo(jobs, keys, n - 1);
    }
  }

  lemma UpToNext(jobs: seq<FlowJob>, keys: map<string, Key>, i: nat)
    requires Keyed(jobs, keys) && DependsInside(jobs, keys) && i < |jobs|
    ensures jobs[i].ref in keys && forall ref | ref in jobs[i].dependsOn :: ref in keys
    ensures DepsUpTo(jobs, keys, i + 1) == DepsUpTo(jobs, keys, i) + JobDeps(keys, jobs[i])
    ensures RefsUpTo(jobs, i + 1) == RefsUpTo(jobs, i) + Elements(jobs[i].dependsOn)
  {
    assert jobs[i] in jobs;
  }

  lemma DependenciesComplete(jobs: seq<FlowJob>, keys: map<string, Key>)
    requires Keyed(jobs, keys) && DependsInside(jobs, keys)
    ensures DepsOf(jobs, keys, DepsUpTo(jobs, keys, |jobs|))
    ensures forall ref :: ref in RefsUpTo(jobs, |jobs|) <==> IsParent(jobs, ref)
  {
    UpTo(jobs, keys, |jobs|);
  }

  /** One job's share: how many distinct jobs it depends on, which, and the rows that say so. */
  method JobDependencies(keys: map<string, Key>, job: FlowJob) returns (count: nat, refs: set<string>, rows: set<Dep>)
    requires job.ref in keys && forall ref | ref in job.dependsOn :: ref in keys
    ensures refs == Elements(job.dependsOn) && count == |Elements(job.dependsOn)| && rows == JobDeps(keys, job)
  {
    var dependsOn := Dedupe(job.dependsOn);
    assert forall ref :: ref in job.dependsOn <==> ref in Elements(dependsOn);
    count := |dependsOn|;
    refs, rows := {}, {};
    for k := 0 to |dependsOn|
      invariant refs == set m | 0 <= m < k :: dependsOn[m]
      invariant rows == set m | 0 <= m < k :: Dep(keys[job.ref], keys[dependsOn[m]])
    {
      refs := refs + {dependsOn[k]};
      rows := rows + {Dep(keys[job.ref], keys[dependsOn[k]])};
    }
  }

  method Dependencies(jobs: seq<FlowJob>, keys: map<string, Key>)
      returns (counts: seq<nat>, parentRefs: set<string>, depRows: set<Dep>)
    requires Keyed(jobs, keys) && DependsInside(jobs, keys)
    ensures |counts| == |jobs| && forall i | 0 <= i < |jobs| :: counts[i] == |Elements(jobs[i].dependsOn)|
    ensures parentRefs == RefsUpTo(jobs, |jobs|) && depRows == DepsUpTo(jobs, keys, |jobs|)
  {
    counts, parentRefs, depRows := [], {}, {};
    for i := 0 to |jobs|
      invariant |counts| == i
      invariant forall k | 0 <= k < i :: counts[k] == |Elements(jobs[k].dependsOn)|
      invariant parentRefs == RefsUpTo(jobs, i) && depRows == DepsUpTo(jobs, keys, i)
    {
      UpToNext(jobs, keys, i);
      var count, refs, rows := JobDependencies(keys, jobs[i]);
      counts := counts + [count];
      parentRefs := parentRefs + refs;
      depRows := depRows + rows;
    }
  }

  /** The payloads and dependency rows of an accepted flow. */
  method BuildFlow(jobs: seq<FlowJob>, keys: map<string, Key>) returns (rows: seq<(Key, Job)>, depRows: set<Dep>)
    requires Keyed(jobs, keys) && DependsInside(jobs, keys)
    ensures RowsOf(jobs, keys, rows) && DepsOf(jobs, keys, depRows)
  {
    var counts: seq<nat>, parentRefs;
    counts, parentRefs, depRows := Dependencies(jobs, keys);
    DependenciesComplete(jobs, keys);
    rows := BuildRows(jobs, keys, counts, parentRefs);
  }

  method BuildRows(jobs: seq<FlowJob>, keys: map<string, Key>, counts: seq<nat>, parentRefs: set<string>)
    returns (rows: seq<(Key, Job)>)
    requires Keyed(jobs, keys) && |counts| == |jobs|
    requires forall i | 0 <= i < |jobs| :: counts[i] == |Elements(jobs[i].dependsOn)|
    requires forall i | 0 <= i < |jobs| :: jobs[i].ref in parentRefs <==> IsParent(jobs, jobs[i].ref)
    ensures RowsOf(jobs, keys, rows)
  {
    rows := [];
    for i := 0 to |jobs|
      invariant |rows| == i
      invariant forall k | 0 <= k < i :: rows[k].0 == keys[jobs[k].ref] && IsRow(jobs, jobs[k], rows[k].1)
    {
      var job := jobs[i];
      assert job in jobs;
      var row := Job(Created, counts[i] > 0, job.ref in parentRefs, counts[i]);
      RowIs(jobs, job, row);
      rows := rows + [(keys[job.ref], row)];
    }
  }

  lemma RowIs(jobs: seq<FlowJob>, job: FlowJob, row: Job)
    requires row.state == Created && row.pending == |Elements(job.dependsOn)| && (row.blocked <==> row.pending > 0)
    requires row.blocking <==> IsParent(jobs, job.ref)
    ensures IsRow(jobs, job, row)
  {
    EmptyWhenNone(job.dependsOn);
  }

  lemma EmptyWhenNone(deps: seq<string>)
    ensures |Elements(deps)| > 0 <==> deps != []
  {
    if deps != [] {
      assert deps[0] in Elements(deps);
    }
  }
}
