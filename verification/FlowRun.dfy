/**
 Flows at run time: what fetching, completing and failing jobs does to the rows `#flow` wrote, and the
 background resolver that takes completed parents off their children's counts (src/navigator.ts,
 src/manager.ts, src/plans.ts). Any number of flows share one table.
 */
module FlowRun {
  import opened FlowGraph
  import opened FlowRows
  import opened JobStates
  import opened Runs
  import Sets

  /**
   `order`, `done` and `forced` are history: an order in which every parent comes before its children,
   the jobs that have completed at some point, and those completed while blocked, by a caller who asked for
   queued jobs as well (`includeQueued`).
   */
  datatype State = State(jobs: map<Key, Job>, deps: set<Dep>, order: seq<Key>, done: set<Key>, forced: set<Key>)

  const Empty := State(map[], {}, [], {}, {})

  // ---- Resolving a batch of completed parents --------------------------------------------------

  function ParentsIn(deps: set<Dep>, child: Key, batch: set<Key>): set<Key>
  {
    set d | d in deps && d.child == child && d.parent in batch :: d.parent
  }

  /** `unblockChildrenUpdate`: a blocked child that depends on the batch loses those parents, and unblocks at zero. */
  function Decrement(j: Job, n: nat): Job
  {
    if !j.blocked || n == 0 then j
    else
      var left := if j.pending > n then j.pending - n else 0;
      j.(pending := left, blocked := left > 0)
  }

  function ResolvedJob(j: Job, n: nat, inBatch: bool): Job
  {
    var left := Decrement(j, n);
    if inBatch then left.(blocking := false) else left
  }

  /** One resolver statement: every child of the batch is decremented and the batch stops blocking. */
  function Resolved(jobs: map<Key, Job>, deps: set<Dep>, batch: set<Key>): map<Key, Job>
  {
    map k | k in jobs :: ResolvedJob(jobs[k], |ParentsIn(deps, k, batch)|, k in batch)
  }

  /** The parents the resolver may take: completed, and not resolved yet. */
  predicate Resolvable(j: Job)
  {
    j.blocking && j.state == Completed
  }

  lemma ParentsInUnion(deps: set<Dep>, k: Key, a: set<Key>, b: set<Key>)
    requires a !! b
    ensures |ParentsIn(deps, k, a + b)| == |ParentsIn(deps, k, a)| + |ParentsIn(deps, k, b)|
  {
    var pa, pb := ParentsIn(deps, k, a), ParentsIn(deps, k, b);
    assert ParentsIn(deps, k, a + b) == pa + pb;
    assert pa !! pb;
  }

  lemma ResolvedTwice(j: Job, m: nat, n: nat, inA: bool, inB: bool)
    ensures ResolvedJob(ResolvedJob(j, m, inA), n, inB) == ResolvedJob(j, m + n, inA || inB)
  {
  }

  /** Two batches one after the other do what their union does at once, so how parents are grouped does not matter. */
  lemma ResolvedInParts(jobs: map<Key, Job>, deps: set<Dep>, a: set<Key>, b: set<Key>)
    requires a !! b
    ensures Resolved(Resolved(jobs, deps, a), deps, b) == Resolved(jobs, deps, a + b)
  {
    var once, twice := Resolved(jobs, deps, a + b), Resolved(Resolved(jobs, deps, a), deps, b);
    forall k | k in jobs ensures twice[k] == once[k] {
      ParentsInUnion(deps, k, a, b);
      ResolvedTwice(jobs[k], |ParentsIn(deps, k, a)|, |ParentsIn(deps, k, b)|, k in a, k in b);
    }
  }

  // ---- Steps -----------------------------------------------------------------------------------

  datatype Step =
    | Submit(flow: seq<FlowJob>, keys: map<string, Key>, rows: seq<(Key, Job)>, deps: set<Dep>, sorted: seq<string>)
    | Fetch(k: Key)
    | Complete(k: Key)
    | CompleteQueued(k: Key)     // complete() with includeQueued
    | Fail(k: Key, to: JobState) // deleted and re-inserted, the flow columns kept
    | Cancel(k: Key)
    | Resume(k: Key)
    | RetryFailed(k: Key)
    | Restore(k: Key)
    | Resolve(batch: set<Key>)

  predicate Fetchable(j: Job)
  {
    (j.state == Created || j.state == Retry) && !j.blocked
  }

  /** What `validateFlowJobs` accepts, the rows `#flow` builds from it, and no key already taken. */
  ghost predicate Submittable(s: State, flow: seq<FlowJob>, keys: map<string, Key>, rows: seq<(Key, Job)>,
      deps: set<Dep>, sorted: seq<string>)
  {
    && WellFormed(flow) && Topological(flow, sorted)
    && (forall ref | ref in sorted :: ref in keys)
    && keys.Keys == Refs(flow) && Keyed(flow, keys) && DependsInside(flow, keys) && DistinctKeys(keys)
    && RowsOf(flow, keys, rows) && DepsOf(flow, keys, deps)
    && forall ref | ref in keys :: keys[ref] !in s.jobs
  }

  ghost predicate Enabled(s: State, step: Step)
  {
    match step
    case Submit(flow, keys, rows, deps, sorted) => Submittable(s, flow, keys, rows, deps, sorted)
    case Fetch(k) => k in s.jobs && Fetchable(s.jobs[k])
    case Complete(k) => k in s.jobs && s.jobs[k].state == Active
    case CompleteQueued(k) => k in s.jobs && Unfinished(s.jobs[k].state)
    case Fail(k, to) => k in s.jobs && Unfinished(s.jobs[k].state) && (to == Retry || to == Failed)
    case Cancel(k) => k in s.jobs && Unfinished(s.jobs[k].state)
    case Resume(k) => k in s.jobs && s.jobs[k].state == Cancelled
    case RetryFailed(k) => k in s.jobs && s.jobs[k].state == Failed
    case Restore(k) => k in s.jobs
    case Resolve(batch) => forall k | k in batch :: k in s.jobs && Resolvable(s.jobs[k])
  }

  function Moved(s: State, k: Key, state: JobState): State
    requires k in s.jobs
  {
    s.(jobs := s.jobs[k := s.jobs[k].(state := state)])
  }

  function Table(rows: seq<(Key, Job)>): map<Key, Job>
  {
    if rows == [] then map[] else Table(rows[..|rows| - 1])[rows[|rows| - 1].0 := rows[|rows| - 1].1]
  }

  function SortedKeys(keys: map<string, Key>, sorted: seq<string>): seq<Key>
    requires forall ref | ref in sorted :: ref in keys
  {
    seq(|sorted|, i requires 0 <= i < |sorted| => keys[sorted[i]])
  }

  ghost function Apply(s: State, step: Step): State
    requires Enabled(s, step)
  {
    match step
    case Submit(flow, keys, rows, deps, sorted) =>
      s.(jobs := s.jobs + Table(rows), deps := s.deps + deps, order := s.order + SortedKeys(keys, sorted))
    case Fetch(k) => Moved(s, k, Active)
    case Complete(k) => Moved(s, k, Completed).(done := s.done + {k})
    case CompleteQueued(k) =>
      s.(jobs := s.jobs[k := Job(Completed, false, s.jobs[k].blocking, 0)], done := s.done + {k},
         forced := if s.jobs[k].blocked then s.forced + {k} else s.forced)
    case Fail(k, to) => Moved(s, k, to)
    case Cancel(k) => Moved(s, k, Cancelled)
    case Resume(k) => Moved(s, k, Created)
    case RetryFailed(k) => Moved(s, k, Retry)
    case Restore(k) => Moved(s, k, Created)
    case Resolve(batch) => s.(jobs := Resolved(s.jobs, s.deps, batch))
  }

  // ---- The invariant ---------------------------------------------------------------------------

  /** The parents of `child` the resolver has not counted yet. */
  function Awaited(jobs: map<Key, Job>, deps: set<Dep>, child: Key): set<Key>
  {
    set d | d in deps && d.child == child && d.parent in jobs && jobs[d.parent].blocking :: d.parent
  }

  /** A child waits for exactly as many parents as are still flagged `blocking`, and is blocked while it waits. */
  ghost predicate CountOk(s: State, k: Key)
    requires k in s.jobs
  {
    if k in s.forced then !s.jobs[k].blocked
    else s.jobs[k].pending == |Awaited(s.jobs, s.deps, k)| && (s.jobs[k].blocked <==> s.jobs[k].pending > 0)
  }

  ghost predicate DepOk(s: State, d: Dep)
  {
    && d.child in s.jobs && d.parent in s.jobs
    && (!s.jobs[d.parent].blocking ==> d.parent in s.done)
  }

  /** `order` lists every job of the table once. */
  ghost predicate Listed(jobs: map<Key, Job>, order: seq<Key>)
  {
    && (forall i | 0 <= i < |order| :: order[i] in jobs)
    && (forall k | k in jobs :: k in order)
    && (forall i, j | 0 <= i < j < |order| :: order[i] != order[j])
  }

  /** And every parent comes before its children. */
  ghost predicate Ordered(s: State)
  {
    Listed(s.jobs, s.order) && forall d {:trigger ParentEarlier(s.order, d)} | d in s.deps :: ParentEarlier(s.order, d)
  }

  ghost predicate ParentEarlier(order: seq<Key>, d: Dep)
  {
    forall i | 0 <= i < |order| && order[i] == d.child :: d.parent in order[..i]
  }

  ghost predicate Inv(s: State)
  {
    && (forall k {:trigger CountOk(s, k)} | k in s.jobs :: CountOk(s, k))
    && (forall d {:trigger DepOk(s, d)} | d in s.deps :: DepOk(s, d))
    && (forall k | k in s.jobs && s.jobs[k].state == Completed :: k in s.done)
    && (forall k | k in s.forced :: k in s.jobs)
    && Ordered(s)
  }

  lemma EmptyInv()
    ensures Inv(Empty)
  {
  }

  /** Steps that leave every flag and count alone keep the invariant. */
  lemma StateOnlyInv(s: State, s': State)
    requires Inv(s) && s'.deps == s.deps && s'.order == s.order && s'.forced == s.forced && s.done <= s'.done
    requires s'.jobs.Keys == s.jobs.Keys
    requires forall k | k in s.jobs :: s'.jobs[k] == s.jobs[k].(state := s'.jobs[k].state)
    requires forall k | k in s.jobs && s'.jobs[k].state == Completed :: k in s'.done
    ensures Inv(s')
  {
    forall k | k in s'.jobs ensures CountOk(s', k) {
      assert CountOk(s, k);
      assert Awaited(s'.jobs, s'.deps, k) == Awaited(s.jobs, s.deps, k);
    }
    forall d | d in s'.deps ensures DepOk(s', d) {
      assert DepOk(s, d);
    }
  }

  lemma MovedInv(s: State, k: Key, state: JobState, done: set<Key>)
    requires Inv(s) && k in s.jobs && s.done <= done && (state == Completed ==> k in done)
    ensures Inv(Moved(s, k, state).(done := done))
  {
    StateOnlyInv(s, Moved(s, k, state).(done := done));
  }

  lemma CompleteQueuedInv(s: State, k: Key)
    requires Inv(s) && Enabled(s, CompleteQueued(k))
    ensures Inv(Apply(s, CompleteQueued(k)))
  {
    var s' := Apply(s, CompleteQueued(k));
    forall c | c in s'.jobs ensures CountOk(s', c) {
      assert CountOk(s, c);
      assert Awaited(s'.jobs, s'.deps, c) == Awaited(s.jobs, s.deps, c);
    }
    forall d | d in s'.deps ensures DepOk(s', d) {
      assert DepOk(s, d);
    }
  }

  lemma AwaitedHas(jobs: map<Key, Job>, deps: set<Dep>, c: Key, p: Key)
    ensures p in Awaited(jobs, deps, c) <==> Dep(c, p) in deps && p in jobs && jobs[p].blocking
  {
    if Dep(c, p) in deps && p in jobs && jobs[p].blocking {
      assert Dep(c, p).parent == p;
    }
  }

  lemma ParentsInHas(deps: set<Dep>, c: Key, batch: set<Key>, p: Key)
    ensures p in ParentsIn(deps, c, batch) <==> Dep(c, p) in deps && p in batch
  {
    if Dep(c, p) in deps && p in batch {
      assert Dep(c, p).parent == p;
    }
  }

  lemma ParentsAreAwaited(s: State, batch: set<Key>, c: Key)
    requires Enabled(s, Resolve(batch))
    ensures ParentsIn(s.deps, c, batch) <= Awaited(s.jobs, s.deps, c)
  {
    forall p | p in ParentsIn(s.deps, c, batch) ensures p in Awaited(s.jobs, s.deps, c) {
      ParentsInHas(s.deps, c, batch, p);
      AwaitedHas(s.jobs, s.deps, c, p);
    }
  }

  lemma ResolvedFlags(jobs: map<Key, Job>, deps: set<Dep>, batch: set<Key>, k: Key)
    requires k in jobs
    ensures var jobs' := Resolved(jobs, deps, batch);
      k in jobs' && jobs'[k].state == jobs[k].state && (jobs'[k].blocking <==> jobs[k].blocking && k !in batch)
  {
  }

  lemma AwaitedAfter(jobs: map<Key, Job>, deps: set<Dep>, batch: set<Key>, c: Key)
    ensures Awaited(Resolved(jobs, deps, batch), deps, c) == Awaited(jobs, deps, c) - ParentsIn(deps, c, batch)
  {
    forall p ensures p in Awaited(Resolved(jobs, deps, batch), deps, c) <==>
        p in Awaited(jobs, deps, c)
        && p !in ParentsIn(deps, c, batch) {
      AwaitedHas(Resolved(jobs, deps, batch), deps, c, p);
      AwaitedHas(jobs, deps, c, p);
      ParentsInHas(deps, c, batch, p);
      if p in jobs {
        ResolvedFlags(jobs, deps, batch, p);
      }
    }
  }

  /** The resolved parents leave a child's wait, each counted once. */
  lemma ResolvedAwaited(s: State, batch: set<Key>, c: Key)
    requires Enabled(s, Resolve(batch))
    ensures var jobs' := Resolved(s.jobs, s.deps, batch);
      |Awaited(jobs', s.deps, c)| + |ParentsIn(s.deps, c, batch)| == |Awaited(s.jobs, s.deps, c)|
  {
    ParentsAreAwaited(s, batch, c);
    AwaitedAfter(s.jobs, s.deps, batch, c);
    Sets.Remainder(Awaited(s.jobs, s.deps, c), ParentsIn(s.deps, c, batch));
  }

  lemma ResolvedCountOk(s: State, batch: set<Key>, c: Key)
    requires Enabled(s, Resolve(batch)) && c in s.jobs && CountOk(s, c)
    ensures CountOk(Apply(s, Resolve(batch)), c)
  {
    ResolvedAwaited(s, batch, c);
  }

  lemma ResolvedDepOk(s: State, batch: set<Key>, d: Dep)
    requires Inv(s) && Enabled(s, Resolve(batch)) && d in s.deps
    ensures DepOk(Apply(s, Resolve(batch)), d)
  {
    assert DepOk(s, d);
    ResolvedFlags(s.jobs, s.deps, batch, d.parent);
  }

  lemma ResolveInv(s: State, batch: set<Key>)
    requires Inv(s) && Enabled(s, Resolve(batch))
    ensures Inv(Apply(s, Resolve(batch)))
  {
    var s' := Apply(s, Resolve(batch));
    forall c | c in s'.jobs ensures CountOk(s', c) {
      assert CountOk(s, c);
      ResolvedCountOk(s, batch, c);
    }
    forall d | d in s'.deps ensures DepOk(s', d) {
      ResolvedDepOk(s, batch, d);
    }
    forall k | k in s'.jobs && s'.jobs[k].state == Completed ensures k in s'.done {
      ResolvedFlags(s.jobs, s.deps, batch, k);
    }
  }

  // ---- Submitting a flow -----------------------------------------------------------------------

  lemma {:induction false} TableHolds(rows: seq<(Key, Job)>)
    requires forall i, j | 0 <= i < j < |rows| :: rows[i].0 != rows[j].0
    ensures forall i | 0 <= i < |rows| :: rows[i].0 in Table(rows) && Table(rows)[rows[i].0] == rows[i].1
    ensures forall k | k in Table(rows) :: exists i :: 0 <= i < |rows| && rows[i].0 == k
  {
    if rows != [] {
      TableHolds(rows[..|rows| - 1]);
    }
  }

  /** What a submitted flow's part of the table says, job by job. */
  ghost predicate TableOf(flow: seq<FlowJob>, keys: map<string, Key>, table: map<Key, Job>)
    requires Keyed(flow, keys)
  {
    && (forall j | j in flow :: keys[j.ref] in table && IsRow(flow, j, table[keys[j.ref]]))
    && (forall k {:trigger IsFlowKey(flow, keys, k)} | k in table :: IsFlowKey(flow, keys, k))
  }

  ghost predicate IsFlowKey(flow: seq<FlowJob>, keys: map<string, Key>, k: Key)
    requires Keyed(flow, keys)
  {
    exists j :: j in flow && k == keys[j.ref]
  }

  lemma FlowTable(flow: seq<FlowJob>, keys: map<string, Key>, rows: seq<(Key, Job)>)
    requires DistinctRefs(flow) && Keyed(flow, keys) && DistinctKeys(keys) && RowsOf(flow, keys, rows)
    ensures TableOf(flow, keys, Table(rows))
  {
    forall i, j | 0 <= i < j < |rows| ensures rows[i].0 != rows[j].0 {
      assert flow[i] in flow && flow[j] in flow;
    }
    TableHolds(rows);
    forall j | j in flow ensures keys[j.ref] in Table(rows) && IsRow(flow, j, Table(rows)[keys[j.ref]]) {
      var i :| 0 <= i < |flow| && flow[i] == j;
      assert rows[i].0 == keys[flow[i].ref];
    }
    forall k | k in Table(rows) ensures IsFlowKey(flow, keys, k) {
      var i :| 0 <= i < |rows| && rows[i].0 == k;
      assert flow[i] in flow;
    }
  }

  function KeysNamed(keys: map<string, Key>, refs: set<string>): set<Key>
    requires refs <= keys.Keys
  {
    set ref | ref in refs :: keys[ref]
  }

  lemma {:induction false} KeysNamedSize(keys: map<string, Key>, refs: set<string>)
    requires DistinctKeys(keys) && refs <= keys.Keys
    ensures |KeysNamed(keys, refs)| == |refs|
  {
    if ref :| ref in refs {
      KeysNamedSize(keys, refs - {ref});
      OneNamedKey(keys, refs, ref);
    }
  }

  lemma OneNamedKey(keys: map<string, Key>, refs: set<string>, ref: string)
    requires DistinctKeys(keys) && refs <= keys.Keys && ref in refs
    ensures KeysNamed(keys, refs) == KeysNamed(keys, refs - {ref}) + {keys[ref]}
    ensures keys[ref] !in KeysNamed(keys, refs - {ref})
  {
  }

  ghost predicate DepsInside(jobs: map<Key, Job>, deps: set<Dep>)
  {
    forall d | d in deps :: d.child in jobs && d.parent in jobs
  }

  lemma InvDepsInside(s: State)
    requires Inv(s)
    ensures DepsInside(s.jobs, s.deps)
  {
    forall d | d in s.deps ensures d.child in s.jobs && d.parent in s.jobs {
      assert DepOk(s, d);
    }
  }

  /** The parts of a submission the lemmas below need, without the table it goes into. */
  ghost predicate NewFlow(flow: seq<FlowJob>, keys: map<string, Key>, table: map<Key, Job>, deps: set<Dep>)
  {
    && DistinctRefs(flow) && keys.Keys == Refs(flow) && Keyed(flow, keys) && DependsInside(flow, keys)
        && DistinctKeys(keys)
    && TableOf(flow, keys, table) && DepsOf(flow, keys, deps)
  }

  lemma OneNamed(flow: seq<FlowJob>, a: FlowJob, b: FlowJob)
    requires DistinctRefs(flow) && a in flow && b in flow && a.ref == b.ref
    ensures a == b
  {
    var i :| 0 <= i < |flow| && flow[i] == a;
    var j :| 0 <= j < |flow| && flow[j] == b;
  }

  /** The rows of a flow that name `c` as the child are its own dependencies. */
  lemma DepsOfChild(flow: seq<FlowJob>, keys: map<string, Key>, table: map<Key, Job>, deps: set<Dep>, c: FlowJob,
      p: Key)
    requires NewFlow(flow, keys, table, deps) && c in flow && Dep(keys[c.ref], p) in deps
    ensures exists ref :: ref in c.dependsOn && ref in keys && p == keys[ref]
  {
    var child, ref :| child in flow && ref in child.dependsOn && Dep(keys[c.ref], p) == Dep(keys[child.ref], keys[ref]);
    assert child.ref == c.ref;
    OneNamed(flow, child, c);
  }

  lemma ParentIsBlocking(flow: seq<FlowJob>, keys: map<string, Key>, table: map<Key, Job>, deps: set<Dep>, c: FlowJob,
      ref: string)
    requires NewFlow(flow, keys, table, deps) && c in flow && ref in c.dependsOn
    ensures ref in keys && keys[ref] in table && table[keys[ref]].blocking && Dep(keys[c.ref], keys[ref]) in deps
  {
    assert ref in Refs(flow);
    var i :| 0 <= i < |flow| && flow[i].ref == ref;
    assert flow[i] in flow && IsParent(flow, ref) && IsRow(flow, flow[i], table[keys[ref]]);
  }

  /** A new job waits for each of its dependencies once, however often it names it. */
  lemma NewJobAwaits(jobs: map<Key, Job>, deps0: set<Dep>, flow: seq<FlowJob>, keys: map<string, Key>, table: map<Key,
      Job>, deps: set<Dep>, c: FlowJob)
    requires DepsInside(jobs, deps0) && NewFlow(flow, keys, table, deps) && jobs.Keys !! table.Keys && c in flow
    ensures Elements(c.dependsOn) <= keys.Keys
    ensures Awaited(jobs + table, deps0 + deps, keys[c.ref]) == KeysNamed(keys, Elements(c.dependsOn))
  {
    var k := keys[c.ref];
    var awaited := Awaited(jobs + table, deps0 + deps, k);
    forall p | p in awaited ensures p in KeysNamed(keys, Elements(c.dependsOn)) {
      assert Dep(k, p) in deps;
      DepsOfChild(flow, keys, table, deps, c, p);
    }
    forall ref | ref in c.dependsOn ensures keys[ref] in awaited {
      ParentIsBlocking(flow, keys, table, deps, c, ref);
      assert Dep(k, keys[ref]) in deps0 + deps;
    }
  }

  lemma NewDepsInside(flow: seq<FlowJob>, keys: map<string, Key>, table: map<Key, Job>, deps: set<Dep>, d: Dep)
    requires NewFlow(flow, keys, table, deps) && d in deps
    ensures d.child in table && d.parent in table && table[d.parent].blocking
  {
    var c, ref :| c in flow && ref in c.dependsOn && d == Dep(keys[c.ref], keys[ref]);
    ParentIsBlocking(flow, keys, table, deps, c, ref);
  }

  lemma OldJobAwaits(jobs: map<Key, Job>, deps0: set<Dep>, flow: seq<FlowJob>, keys: map<string, Key>, table: map<Key,
      Job>, deps: set<Dep>, k: Key)
    requires DepsInside(jobs, deps0) && NewFlow(flow, keys, table, deps) && jobs.Keys !! table.Keys && k in jobs
    ensures Awaited(jobs + table, deps0 + deps, k) == Awaited(jobs, deps0, k)
  {
    forall d | d in deps && d.child == k ensures false {
      NewDepsInside(flow, keys, table, deps, d);
    }
    assert forall p | p in jobs :: (jobs + table)[p] == jobs[p];
  }

  lemma ListedExtended(jobs: map<Key, Job>, order: seq<Key>, table: map<Key, Job>, keys: seq<Key>)
    requires Listed(jobs, order) && Listed(table, keys) && jobs.Keys !! table.Keys
    ensures Listed(jobs + table, order + keys)
  {
    forall k | k in jobs + table ensures k in order + keys {
      assert k in order || k in keys;
    }
    forall i, j | 0 <= i < j < |order + keys| ensures (order + keys)[i] != (order + keys)[j] {
      if i < |order| <= j {
        assert keys[j - |order|] in table;
      }
    }
  }

  lemma SortedKeysListed(flow: seq<FlowJob>, keys: map<string, Key>, table: map<Key, Job>, deps: set<Dep>,
      sorted: seq<string>)
    requires NewFlow(flow, keys, table, deps) && Distinct(sorted) && Elements(sorted) == keys.Keys
    requires forall ref | ref in sorted :: ref in keys
    ensures Listed(table, SortedKeys(keys, sorted))
  {
    var listed := SortedKeys(keys, sorted);
    forall i | 0 <= i < |listed| ensures listed[i] in table {
      assert sorted[i] in Refs(flow);
      var j :| 0 <= j < |flow| && flow[j].ref == sorted[i];
      assert flow[j] in flow;
    }
    forall k | k in table ensures k in listed {
      assert IsFlowKey(flow, keys, k);
      var j :| j in flow && k == keys[j.ref];
      assert j.ref in Elements(sorted);
      var i :| 0 <= i < |sorted| && sorted[i] == j.ref;
      assert listed[i] == k;
    }
  }

  lemma OldDepOrdered(order: seq<Key>, keys: seq<Key>, d: Dep)
    requires ParentEarlier(order, d) && d.child !in keys
    ensures ParentEarlier(order + keys, d)
  {
    forall i | 0 <= i < |order + keys| && (order + keys)[i] == d.child ensures d.parent in (order + keys)[..i] {
      assert (order + keys)[..i] == order[..i];
    }
  }

  lemma ParentBefore(flow: seq<FlowJob>, sorted: seq<string>, m: nat, ref: string, c: FlowJob) returns (a: nat)
    requires Topological(flow, sorted) && m < |sorted| && c in flow && c.ref == sorted[m] && ref in c.dependsOn
    ensures a < m && sorted[a] == ref
  {
    assert Edge(flow, ref, sorted[m]);
    a :| 0 <= a < m && sorted[a] == ref;
  }

  lemma NewDepOrdered(order: seq<Key>, flow: seq<FlowJob>, keys: map<string, Key>, table: map<Key, Job>,
      deps: set<Dep>, sorted: seq<string>, d: Dep)
    requires NewFlow(flow, keys, table, deps) && Topological(flow, sorted) && forall ref | ref in sorted :: ref in keys
    requires d in deps && d.child !in order
    ensures ParentEarlier(order + SortedKeys(keys, sorted), d)
  {
    var listed := SortedKeys(keys, sorted);
    var c, ref :| c in flow && ref in c.dependsOn && d == Dep(keys[c.ref], keys[ref]);
    forall i | 0 <= i < |order + listed| && (order + listed)[i] == d.child ensures d.parent in (order + listed)[..i] {
      var m := i - |order|;
      assert sorted[m] == c.ref;
      var a := ParentBefore(flow, sorted, m, ref, c);
      assert (order + listed)[..i][|order| + a] == d.parent;
    }
  }

  lemma SubmittedFlow(s: State, flow: seq<FlowJob>, keys: map<string, Key>, rows: seq<(Key, Job)>, deps: set<Dep>,
      sorted: seq<string>)
    requires Submittable(s, flow, keys, rows, deps, sorted)
    ensures NewFlow(flow, keys, Table(rows), deps) && s.jobs.Keys !! Table(rows).Keys
  {
    FlowTable(flow, keys, rows);
    forall k | k in Table(rows) ensures k !in s.jobs {
      assert IsFlowKey(flow, keys, k);
    }
  }

  lemma SubmitOrdered(s: State, flow: seq<FlowJob>, keys: map<string, Key>, rows: seq<(Key, Job)>, deps: set<Dep>,
      sorted: seq<string>)
    requires DepsInside(s.jobs, s.deps) && Ordered(s) && Submittable(s, flow, keys, rows, deps, sorted)
    ensures Ordered(Apply(s, Submit(flow, keys, rows, deps, sorted)))
  {
    SubmittedFlow(s, flow, keys, rows, deps, sorted);
    var listed := SortedKeys(keys, sorted);
    SortedKeysListed(flow, keys, Table(rows), deps, sorted);
    ListedExtended(s.jobs, s.order, Table(rows), listed);
    forall d | d in s.deps + deps ensures ParentEarlier(s.order + listed, d) {
      if d in s.deps {
        assert ParentEarlier(s.order, d);
        OldDepOrdered(s.order, listed, d);
      } else {
        NewDepsInside(flow, keys, Table(rows), deps, d);
        NewDepOrdered(s.order, flow, keys, Table(rows), deps, sorted, d);
      }
    }
  }

  lemma NewCountOk(s: State, s': State, flow: seq<FlowJob>, keys: map<string, Key>, table: map<Key, Job>,
      deps: set<Dep>, k: Key)
    requires DepsInside(s.jobs, s.deps) && NewFlow(flow, keys, table, deps) && s.jobs.Keys !! table.Keys && k in table
    requires s'.jobs == s.jobs + table && s'.deps == s.deps + deps && k !in s'.forced
    ensures CountOk(s', k) && s'.jobs[k].state == Created
  {
    assert IsFlowKey(flow, keys, k);
    var c :| c in flow && k == keys[c.ref];
    NewJobAwaits(s.jobs, s.deps, flow, keys, table, deps, c);
    KeysNamedSize(keys, Elements(c.dependsOn));
    EmptyWhenNone(c.dependsOn);
  }

  lemma SubmitInv(s: State, flow: seq<FlowJob>, keys: map<string, Key>, rows: seq<(Key, Job)>, deps: set<Dep>,
      sorted: seq<string>)
    requires Inv(s) && Submittable(s, flow, keys, rows, deps, sorted)
    ensures Inv(Apply(s, Submit(flow, keys, rows, deps, sorted)))
  {
    InvDepsInside(s);
    SubmittedFlow(s, flow, keys, rows, deps, sorted);
    SubmitOrdered(s, flow, keys, rows, deps, sorted);
    var s' := Apply(s, Submit(flow, keys, rows, deps, sorted));
    forall k | k in s'.jobs ensures CountOk(s', k) && (s'.jobs[k].state == Completed ==> k in s'.done) {
      if k in s.jobs {
        assert CountOk(s, k);
        OldJobAwaits(s.jobs, s.deps, flow, keys, Table(rows), deps, k);
      } else {
        NewCountOk(s, s', flow, keys, Table(rows), deps, k);
      }
    }
    forall d | d in s'.deps ensures DepOk(s', d) {
      if d in s.deps {
        assert DepOk(s, d);
      } else {
        NewDepsInside(flow, keys, Table(rows), deps, d);
      }
    }
  }

  lemma NextInv(s: State, step: Step)
    requires Inv(s) && Enabled(s, step)
    ensures Inv(Apply(s, step))
  {
    match step
    case Submit(flow, keys, rows, deps, sorted) => SubmitInv(s, flow, keys, rows, deps, sorted);
    case CompleteQueued(k) => CompleteQueuedInv(s, k);
    case Resolve(batch) => ResolveInv(s, batch);
    case Fetch(k) => MovedInv(s, k, Active, s.done);
    case Complete(k) => MovedInv(s, k, Completed, s.done + {k});
    case Fail(k, to) => MovedInv(s, k, to, s.done);
    case Cancel(k) => MovedInv(s, k, Cancelled, s.done);
    case Resume(k) => MovedInv(s, k, Created, s.done);
    case RetryFailed(k) => MovedInv(s, k, Retry, s.done);
    case Restore(k) => MovedInv(s, k, Created, s.done);
  }

  // ---- Whole runs ------------------------------------------------------------------------------

  ghost predicate Reachable(s: State, n: nat)
  {
    LeadsTo(Empty, Follows, s, n)
  }

  ghost predicate Follows(p: State, s: State)
  {
    exists step :: Leads(p, step, s)
  }

  ghost predicate Leads(p: State, step: Step, s: State)
  {
    Enabled(p, step) && s == Apply(p, step)
  }

  lemma FollowsInv(p: State, s: State)
    requires Inv(p) && Follows(p, s)
    ensures Inv(s)
  {
    var step :| Leads(p, step, s);
    NextInv(p, step);
  }

  lemma ReachableInv(s: State, n: nat)
    requires Reachable(s, n)
    ensures Inv(s)
  {
    EmptyInv();
    forall p, q | Inv(p) && Follows(p, q) ensures Inv(q) {
      FollowsInv(p, q);
    }
    Induction(Empty, Follows, Inv, s, n);
  }

  /** Over any run, a child's count is the number of its distinct parents the resolver has not counted. */
  lemma PendingIsAwaited(s: State, n: nat, k: Key)
    requires Reachable(s, n) && k in s.jobs && k !in s.forced
    ensures s.jobs[k].pending == |Awaited(s.jobs, s.deps, k)|
    ensures s.jobs[k].blocked <==> s.jobs[k].pending > 0
  {
    ReachableInv(s, n);
    assert CountOk(s, k);
  }

  /** Over any run, no job is fetched before all its parents have completed, unless it was completed while blocked. */
  lemma FetchedAfterParents(s: State, n: nat, d: Dep)
    requires Reachable(s, n) && d in s.deps && d.child !in s.forced
    requires Enabled(s, Fetch(d.child))
    ensures d.parent in s.done
  {
    ReachableInv(s, n);
    NotBlockedIsReady(s, d);
  }

  lemma NotBlockedIsReady(s: State, d: Dep)
    requires Inv(s) && d in s.deps && d.child in s.jobs && d.child !in s.forced && !s.jobs[d.child].blocked
    ensures d.parent in s.done
  {
    assert DepOk(s, d) && CountOk(s, d.child);
    assert Awaited(s.jobs, s.deps, d.child) == {};
    assert s.jobs[d.parent].blocking ==> d.parent in Awaited(s.jobs, s.deps, d.child);
  }

  /** A job completed while it is queued, and then restored. */
  function CompletedAndRestored(s: State, k: Key): State
    requires k in s.jobs
  {
    var forced := if s.jobs[k].blocked then s.forced + {k} else s.forced;
    s.(jobs := s.jobs[k := Job(Created, false, s.jobs[k].blocking, 0)], done := s.done + {k}, forced := forced)
  }

  lemma CompleteThenRestore(s: State, k: Key)
    requires k in s.jobs && Unfinished(s.jobs[k].state)
    ensures Enabled(s, CompleteQueued(k)) && Enabled(Apply(s, CompleteQueued(k)), Restore(k))
    ensures Apply(Apply(s, CompleteQueued(k)), Restore(k)) == CompletedAndRestored(s, k)
  {
    var after := Apply(s, CompleteQueued(k));
    assert after.jobs[k := after.jobs[k].(state := Created)] == CompletedAndRestored(s, k).jobs;
  }

  /** Some parent of the job has never completed. */
  ghost predicate SkipsParent(s: State, k: Key)
  {
    exists d :: d in s.deps && d.child == k && d.parent !in s.done
  }

  lemma RestoredAwaits(s: State, k: Key)
    requires Inv(s) && k in s.jobs
    ensures Awaited(CompletedAndRestored(s, k).jobs, s.deps, k) == Awaited(s.jobs, s.deps, k)
  {
    var r := CompletedAndRestored(s, k);
    forall p ensures p in Awaited(r.jobs, s.deps, k) <==> p in Awaited(s.jobs, s.deps, k) {
      AwaitedHas(r.jobs, s.deps, k, p);
      AwaitedHas(s.jobs, s.deps, k, p);
    }
  }

  /** No job is its own parent. */
  lemma ParentIsOther(s: State, d: Dep)
    requires Inv(s) && d in s.deps
    ensures d.parent != d.child
  {
    assert DepOk(s, d) && ParentEarlier(s.order, d);
    var i :| 0 <= i < |s.order| && s.order[i] == d.child;
    var j :| 0 <= j < i && s.order[j] == d.parent;
  }

  /** A job that is not forced still waits for every parent that has never completed. */
  lemma UndoneIsAwaited(s: State, d: Dep)
    requires Inv(s) && d in s.deps && d.parent !in s.done
    ensures d.child in s.jobs && d.parent in Awaited(s.jobs, s.deps, d.child)
    ensures d.child !in s.forced ==> s.jobs[d.child].blocked
  {
    assert DepOk(s, d);
    AwaitedHas(s.jobs, s.deps, d.child, d.parent);
    assert Dep(d.child, d.parent) == d;
    assert CountOk(s, d.child);
  }

  /**
   What that exception costs. In any run, completing a queued job and restoring it makes it fetchable at
   once; there are parents left that the resolver has not counted if and only if the job was blocked before
   the call.
   */
  lemma ForcedSkipsIffBlocked(s: State, n: nat, k: Key)
    requires Reachable(s, n) && k in s.jobs && Unfinished(s.jobs[k].state) && k !in s.forced
    ensures Enabled(s, CompleteQueued(k)) && Enabled(Apply(s, CompleteQueued(k)), Restore(k))
    ensures var r := Apply(Apply(s, CompleteQueued(k)), Restore(k));
      && Enabled(r, Fetch(k))
      && (Awaited(r.jobs, r.deps, k) != {} <==> s.jobs[k].blocked)
      && (!s.jobs[k].blocked ==> !SkipsParent(r, k))
  {
    CompleteThenRestore(s, k);
    ReachableInv(s, n);
    assert CountOk(s, k);
    RestoredAwaits(s, k);
    SkippedIff(s, k);
  }

  /**
   And it can then be fetched before some parent has ever completed if and only if it was blocked before the
   call by a parent that had not: a job that only waits for the resolver skips nobody.
   */
  lemma ForcedSkipsParentIff(s: State, n: nat, k: Key)
    requires Reachable(s, n) && k in s.jobs && Unfinished(s.jobs[k].state) && k !in s.forced
    ensures Enabled(s, CompleteQueued(k)) && Enabled(Apply(s, CompleteQueued(k)), Restore(k))
    ensures SkipsParent(Apply(Apply(s, CompleteQueued(k)), Restore(k)), k)
        <==> s.jobs[k].blocked && exists p :: p in Awaited(s.jobs, s.deps, k) && p !in s.done
  {
    CompleteThenRestore(s, k);
    ReachableInv(s, n);
    SkippedIff(s, k);
  }

  lemma SkippedIff(s: State, k: Key)
    requires Inv(s) && k in s.jobs && k !in s.forced
    ensures SkipsParent(CompletedAndRestored(s, k), k)
        <==> s.jobs[k].blocked && exists p :: p in Awaited(s.jobs, s.deps, k) && p !in s.done
  {
    var r := CompletedAndRestored(s, k);
    if d :| d in r.deps && d.child == k && d.parent !in r.done {
      UndoneIsAwaited(s, d);
    }
    if p :| p in Awaited(s.jobs, s.deps, k) && p !in s.done {
      AwaitedHas(s.jobs, s.deps, k, p);
      var d := Dep(k, p);
      ParentIsOther(s, d);
      assert d in r.deps && d.child == k && d.parent !in r.done;
    }
  }
}
