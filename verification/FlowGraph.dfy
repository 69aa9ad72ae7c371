/**
 Accepting or rejecting a flow (`validateFlowJobs` and `findDependencyCycle` in src/attorney.ts):
 the shape checks, Kahn's topological sort, and the depth-first search that names the cycle when the
 sort leaves jobs over.
 */
module FlowGraph {
  import opened Names
  import opened Options
  import Sets

  datatype FlowJob = FlowJob(ref: string, name: string, dependsOn: seq<string>)

  datatype FlowError =
    | TooFewJobs
    | EmptyRef
    | DuplicateRef(ref: string)
    | EmptyName
    | IllegalName(name: string)
    | NoDependencies
    | EmptyDependency
    | SelfDependency(ref: string)
    | UnknownDependency(dep: string)
    | DependencyCycle(path: seq<string>)

  // ---- What a flow has to be -------------------------------------------------------------------

  function Refs(jobs: seq<FlowJob>): set<string>
  {
    set i | 0 <= i < |jobs| :: jobs[i].ref
  }

  ghost predicate DistinctRefs(jobs: seq<FlowJob>)
  {
    forall i, j | 0 <= i < j < |jobs| :: jobs[i].ref != jobs[j].ref
  }

  ghost predicate NamedOk(job: FlowJob)
  {
    job.ref != "" && LegalName(job.name)
  }

  ghost predicate DependsOk(refs: set<string>, job: FlowJob)
  {
    forall dep | dep in job.dependsOn :: dep != "" && dep != job.ref && dep in refs
  }

  ghost predicate WellFormed(jobs: seq<FlowJob>)
  {
    && |jobs| >= 2
    && DistinctRefs(jobs)
    && (forall i | 0 <= i < |jobs| :: NamedOk(jobs[i]) && DependsOk(Refs(jobs), jobs[i]))
    && exists i :: 0 <= i < |jobs| && jobs[i].dependsOn != []
  }

  /** The error names something that is wrong with the flow. */
  ghost predicate Explains(jobs: seq<FlowJob>, e: FlowError)
  {
    match e
    case TooFewJobs => |jobs| < 2
    case EmptyRef => exists j :: j in jobs && j.ref == ""
    case DuplicateRef(ref) => exists i, j :: 0 <= i < j < |jobs| && jobs[i].ref == jobs[j].ref == ref
    case EmptyName => exists j :: j in jobs && j.name == ""
    case IllegalName(name) => !LegalName(name) && exists j :: j in jobs && j.name == name
    case NoDependencies => forall j | j in jobs :: j.dependsOn == []
    case EmptyDependency => exists j :: j in jobs && "" in j.dependsOn
    case SelfDependency(ref) => exists j :: j in jobs && j.ref == ref && ref in j.dependsOn
    case UnknownDependency(dep) => dep !in Refs(jobs) && exists j :: j in jobs && dep in j.dependsOn
    case DependencyCycle(path) => ClosedWalk(jobs, path)
  }

  /** `child` names `parent` among the jobs it depends on. */
  ghost predicate Edge(jobs: seq<FlowJob>, parent: string, child: string)
  {
    exists j :: j in jobs && j.ref == child && parent in j.dependsOn
  }

  ghost predicate ClosedWalk(jobs: seq<FlowJob>, path: seq<string>)
  {
    && |path| >= 2
    && path[0] == path[|path| - 1]
    && forall i | 0 <= i < |path| - 1 :: Edge(jobs, path[i], path[i + 1])
  }

  ghost predicate Acyclic(jobs: seq<FlowJob>)
  {
    forall path: seq<string> :: !ClosedWalk(jobs, path)
  }

  ghost predicate Distinct(s: seq<string>)
  {
    forall i, j | 0 <= i < j < |s| :: s[i] != s[j]
  }

  /** Every job once, and after every job it depends on. */
  ghost predicate Topological(jobs: seq<FlowJob>, order: seq<string>)
  {
    && Distinct(order) && (set ref | ref in order) == Refs(jobs)
    && forall i, p | 0 <= i < |order| && Edge(jobs, p, order[i]) :: p in order[..i]
  }

  // ---- A topological order rules cycles out ----------------------------------------------------

  lemma {:induction false} WalkClimbs(jobs: seq<FlowJob>, order: seq<string>, path: seq<string>, n: nat)
      returns (from: nat, to: nat)
    requires Topological(jobs, order) && 1 <= n < |path|
    requires forall i | 0 <= i < |path| - 1 :: Edge(jobs, path[i], path[i + 1])
    ensures from < to < |order| && order[from] == path[0] && order[to] == path[n]
  {
    assert Edge(jobs, path[n - 1], path[n]);
    assert path[n] in Refs(jobs);
    assert path[n] in order;
    to :| 0 <= to < |order| && order[to] == path[n];
    assert path[n - 1] in order[..to];
    if n == 1 {
      from :| 0 <= from < to && order[from] == path[0];
    } else {
      var middle: nat;
      from, middle := WalkClimbs(jobs, order, path, n - 1);
      var k :| 0 <= k < to && order[k] == path[n - 1];
      assert k == middle;
    }
  }

  lemma TopologicalIsAcyclic(jobs: seq<FlowJob>, order: seq<string>)
    requires Topological(jobs, order)
    ensures Acyclic(jobs)
  {
    forall path: seq<string> ensures !ClosedWalk(jobs, path) {
      if ClosedWalk(jobs, path) {
        var from, to := WalkClimbs(jobs, order, path, |path| - 1);
      }
    }
  }

  // ---- The shape checks ------------------------------------------------------------------------

  method CheckNames(jobs: seq<FlowJob>) returns (e: Option<FlowError>, refs: set<string>)
    ensures e == None ==> refs == Refs(jobs) && DistinctRefs(jobs) && forall i | 0 <= i < |jobs| :: NamedOk(jobs[i])
    ensures e.Some? ==> !e.value.DependencyCycle? && Explains(jobs, e.value)
    ensures e.Some? ==> !WellFormed(jobs)
  {
    refs := {};
    for i := 0 to |jobs|
      invariant refs == set k | 0 <= k < i :: jobs[k].ref
      invariant forall k, m | 0 <= k < m < i :: jobs[k].ref != jobs[m].ref
      invariant forall k | 0 <= k < i :: NamedOk(jobs[k])
    {
      var job := jobs[i];
      assert job in jobs;
      if job.ref == "" {
        return Some(EmptyRef), refs;
      }
      if job.ref in refs {
        return Some(DuplicateRef(job.ref)), refs;
      }
      refs := refs + {job.ref};
      if job.name == "" {
        return Some(EmptyName), refs;
      }
      if !LegalName(job.name) {
        return Some(IllegalName(job.name)), refs;
      }
    }
    e := None;
  }

  method CheckDependencies(jobs: seq<FlowJob>, refs: set<string>) returns (e: Option<FlowError>)
    requires refs == Refs(jobs)
    ensures e == None ==> forall i | 0 <= i < |jobs| :: DependsOk(refs, jobs[i])
    ensures e.Some? ==> !e.value.DependencyCycle? && Explains(jobs, e.value)
    ensures e.Some? ==> !WellFormed(jobs)
  {
    for i := 0 to |jobs|
      invariant forall k | 0 <= k < i :: DependsOk(refs, jobs[k])
    {
      var job := jobs[i];
      assert job in jobs;
      for d := 0 to |job.dependsOn|
        invariant forall k | 0 <= k < d ::
            job.dependsOn[k] != "" && job.dependsOn[k] != job.ref
            && job.dependsOn[k] in refs
      {
        var dep := job.dependsOn[d];
        assert dep in job.dependsOn;
        if dep == "" {
          return Some(EmptyDependency);
        }
        if dep == job.ref {
          return Some(SelfDependency(job.ref));
        }
        if dep !in refs {
          return Some(UnknownDependency(dep));
        }
      }
    }
    e := None;
  }

  method CheckShape(jobs: seq<FlowJob>) returns (e: Option<FlowError>)
    ensures e == None <==> WellFormed(jobs)
    ensures e.Some? ==> !e.value.DependencyCycle? && Explains(jobs, e.value)
  {
    if |jobs| < 2 {
      return Some(TooFewJobs);
    }
    var refs;
    e, refs := CheckNames(jobs);
    if e.Some? {
      return;
    }
    var hasDeps := false;
    for i := 0 to |jobs|
      invariant hasDeps <==> exists k :: 0 <= k < i && jobs[k].dependsOn != []
    {
      hasDeps := hasDeps || jobs[i].dependsOn != [];
    }
    if !hasDeps {
      return Some(NoDependencies);
    }
    e := CheckDependencies(jobs, refs);
  }

  // ---- The edges, and how many dependencies are left -------------------------------------------

  function Count(s: seq<string>, x: string): nat
  {
    if s == [] then 0 else Count(s[..|s| - 1], x) + if s[|s| - 1] == x then 1 else 0
  }

  /** How many entries of `deps`, repeats included, are not in `done`. */
  function Unmet(deps: seq<string>, done: set<string>): nat
  {
    if deps == [] then 0 else Unmet(deps[..|deps| - 1], done) + if deps[|deps| - 1] in done then 0 else 1
  }

  lemma {:induction false} CountPositive(s: seq<string>, x: string)
    ensures Count(s, x) > 0 <==> x in s
  {
    if s != [] {
      CountPositive(s[..|s| - 1], x);
      assert s == s[..|s| - 1] + [s[|s| - 1]];
    }
  }

  lemma {:induction false} CountPrefix(s: seq<string>, i: nat, x: string)
    requires i <= |s|
    ensures Count(s[..i], x) <= Count(s, x)
    ensures i < |s| && s[i] == x ==> Count(s[..i], x) < Count(s, x)
    decreases |s| - i
  {
    if i == |s| {
      assert s[..i] == s;
    } else {
      CountPrefix(s, i + 1, x);
      assert s[..i + 1][..i] == s[..i];
    }
  }

  lemma {:induction false} UnmetDone(deps: seq<string>, done: set<string>, x: string)
    requires x !in done
    ensures Unmet(deps, done + {x}) + Count(deps, x) == Unmet(deps, done)
  {
    if deps != [] {
      UnmetDone(deps[..|deps| - 1], done, x);
    }
  }

  lemma {:induction false} UnmetZero(deps: seq<string>, done: set<string>)
    ensures Unmet(deps, done) == 0 <==> forall d | d in deps :: d in done
  {
    if deps != [] {
      UnmetZero(deps[..|deps| - 1], done);
      assert deps == deps[..|deps| - 1] + [deps[|deps| - 1]];
    }
  }

  lemma {:induction false} UnmetNone(deps: seq<string>)
    ensures Unmet(deps, {}) == |deps|
  {
    if deps != [] {
      UnmetNone(deps[..|deps| - 1]);
    }
  }

  lemma CountNext(s: seq<string>, d: nat, x: string)
    requires d < |s|
    ensures Count(s[..d + 1], x) == Count(s[..d], x) + if s[d] == x then 1 else 0
  {
    assert s[..d + 1][..d] == s[..d];
  }

  /** `list` holds the dependents of `p` among the jobs before `n`, once per entry that names it. */
  ghost predicate ListsDependents(jobs: seq<FlowJob>, refs: set<string>, list: seq<string>, p: string, n: nat)
  {
    && (forall c | c in list :: c in refs)
    && forall j | 0 <= j < |jobs| :: Count(list, jobs[j].ref) == if j < n then Count(jobs[j].dependsOn, p) else 0
  }

  ghost predicate EdgesOf(jobs: seq<FlowJob>, refs: set<string>, edges: map<string, seq<string>>, n: nat)
  {
    edges.Keys == refs && forall p {:trigger ListsDependents(jobs, refs, edges[p], p, n)} | p in refs ::
        ListsDependents(jobs, refs, edges[p], p, n)
  }

  ghost predicate DegreesOf(jobs: seq<FlowJob>, refs: set<string>, inDegree: map<string, int>, n: nat)
  {
    && inDegree.Keys == refs
    && forall j | 0 <= j < |jobs| :: jobs[j].ref in refs && inDegree[jobs[j].ref] == if j < n then |jobs[j].dependsOn|
        else 0
  }

  function Repeat(x: string, n: nat): seq<string>
  {
    if n == 0 then [] else Repeat(x, n - 1) + [x]
  }

  lemma CountPushed(s: seq<string>, x: string, y: string)
    ensures Count(s + [x], y) == Count(s, y) + if x == y then 1 else 0
  {
    assert (s + [x])[..|s|] == s;
  }

  lemma PushLast(s: seq<string>, t: seq<string>, x: string)
    ensures s + t + [x] == s + (t + [x])
  {
  }

  lemma {:induction false} CountRepeat(s: seq<string>, x: string, n: nat, y: string)
    ensures Count(s + Repeat(x, n), y) == Count(s, y) + if x == y then n else 0
  {
    if n == 0 {
      assert s + Repeat(x, n) == s;
    } else {
      var shorter := Repeat(x, n - 1);
      CountRepeat(s, x, n - 1, y);
      CountPushed(s + shorter, x, y);
      PushLast(s, shorter, x);
    }
  }

  lemma {:induction false} RepeatHolds(x: string, n: nat)
    ensures forall c | c in Repeat(x, n) :: c == x
  {
    if n > 0 {
      RepeatHolds(x, n - 1);
    }
  }

  /** `ref` was pushed onto the list of every job the first `d` entries of `deps` name. */
  ghost predicate Pushed(edges: map<string, seq<string>>, edges': map<string, seq<string>>, ref: string,
      deps: seq<string>, d: nat)
    requires d <= |deps|
  {
    edges'.Keys == edges.Keys && forall p | p in edges :: edges'[p] == edges[p] + Repeat(ref, Count(deps[..d], p))
  }

  lemma PushedNext(edges: map<string, seq<string>>, edges': map<string, seq<string>>, ref: string, deps: seq<string>,
      d: nat)
    requires d < |deps| && deps[d] in edges && Pushed(edges, edges', ref, deps, d)
    ensures Pushed(edges, edges'[deps[d] := edges'[deps[d]] + [ref]], ref, deps, d + 1)
  {
    var next := edges'[deps[d] := edges'[deps[d]] + [ref]];
    forall p | p in edges ensures next[p] == edges[p] + Repeat(ref, Count(deps[..d + 1], p)) {
      CountNext(deps, d, p);
    }
  }

  lemma ListExtended(jobs: seq<FlowJob>, refs: set<string>, list: seq<string>, p: string, i: nat)
    requires DistinctRefs(jobs) && i < |jobs| && jobs[i].ref in refs && ListsDependents(jobs, refs, list, p, i)
    ensures ListsDependents(jobs, refs, list + Repeat(jobs[i].ref, Count(jobs[i].dependsOn, p)), p, i + 1)
  {
    var n := Count(jobs[i].dependsOn, p);
    RepeatHolds(jobs[i].ref, n);
    forall j | 0 <= j < |jobs|
      ensures Count(list + Repeat(jobs[i].ref, n), jobs[j].ref) == if j < i + 1 then Count(jobs[j].dependsOn, p) else 0
    {
      CountRepeat(list, jobs[i].ref, n, jobs[j].ref);
    }
  }

  /** `ref`'s in-degree has risen by `d`. */
  ghost predicate Raised(degree: map<string, int>, degree': map<string, int>, ref: string, d: int)
  {
    ref in degree && degree' == degree[ref := degree[ref] + d]
  }

  lemma RaisedNext(degree: map<string, int>, degree': map<string, int>, ref: string, d: int)
    requires Raised(degree, degree', ref, d)
    ensures ref in degree' && Raised(degree, degree'[ref := degree'[ref] + 1], ref, d + 1)
  {
  }

  /** One job's dependencies, each pushing the job onto its dependency's list and adding to its in-degree. */
  method AddEdges(job: FlowJob, edges: map<string, seq<string>>, inDegree: map<string, int>)
    returns (edges': map<string, seq<string>>, inDegree': map<string, int>)
    requires job.ref in inDegree && forall dep | dep in job.dependsOn :: dep in edges
    ensures Pushed(edges, edges', job.ref, job.dependsOn, |job.dependsOn|)
    ensures Raised(inDegree, inDegree', job.ref, |job.dependsOn|)
  {
    edges', inDegree' := edges, inDegree;
    for d := 0 to |job.dependsOn|
      invariant Pushed(edges, edges', job.ref, job.dependsOn, d)
      invariant Raised(inDegree, inDegree', job.ref, d)
    {
      var dep := job.dependsOn[d];
      PushedNext(edges, edges', job.ref, job.dependsOn, d);
      edges' := edges'[dep := edges'[dep] + [job.ref]];
      RaisedNext(inDegree, inDegree', job.ref, d);
      inDegree' := inDegree'[job.ref := inDegree'[job.ref] + 1];
    }
  }

  lemma EdgesExtended(jobs: seq<FlowJob>, refs: set<string>, edges: map<string, seq<string>>, edges': map<string,
      seq<string>>, i: nat)
    requires DistinctRefs(jobs) && i < |jobs| && jobs[i].ref in refs && EdgesOf(jobs, refs, edges, i)
    requires Pushed(edges, edges', jobs[i].ref, jobs[i].dependsOn, |jobs[i].dependsOn|)
    ensures EdgesOf(jobs, refs, edges', i + 1)
  {
    assert jobs[i].dependsOn[..|jobs[i].dependsOn|] == jobs[i].dependsOn;
    forall p | p in refs ensures ListsDependents(jobs, refs, edges'[p], p, i + 1) {
      assert ListsDependents(jobs, refs, edges[p], p, i);
      ListExtended(jobs, refs, edges[p], p, i);
    }
  }

  lemma DegreesExtended(jobs: seq<FlowJob>, refs: set<string>, inDegree: map<string, int>, inDegree': map<string, int>,
      i: nat)
    requires DistinctRefs(jobs) && i < |jobs| && DegreesOf(jobs, refs, inDegree, i)
    requires inDegree' == inDegree[jobs[i].ref := inDegree[jobs[i].ref] + |jobs[i].dependsOn|]
    ensures DegreesOf(jobs, refs, inDegree', i + 1)
  {
  }

  method EmptyEdges(jobs: seq<FlowJob>, ghost refs: set<string>)
      returns (edges: map<string, seq<string>>, inDegree: map<string, int>)
    requires refs == Refs(jobs)
    ensures EdgesOf(jobs, refs, edges, 0) && DegreesOf(jobs, refs, inDegree, 0)
  {
    edges, inDegree := map[], map[];
    for i := 0 to |jobs|
      invariant edges.Keys == inDegree.Keys == set k | 0 <= k < i :: jobs[k].ref
      invariant forall p | p in edges :: edges[p] == [] && inDegree[p] == 0
    {
      inDegree := inDegree[jobs[i].ref := 0];
      edges := edges[jobs[i].ref := []];
    }
  }

  method AddJob(jobs: seq<FlowJob>, ghost refs: set<string>, i: nat, edges: map<string, seq<string>>,
      inDegree: map<string, int>)
    returns (edges': map<string, seq<string>>, inDegree': map<string, int>)
    requires DistinctRefs(jobs) && i < |jobs| && DependsOk(refs, jobs[i])
    requires EdgesOf(jobs, refs, edges, i) && DegreesOf(jobs, refs, inDegree, i)
    ensures EdgesOf(jobs, refs, edges', i + 1) && DegreesOf(jobs, refs, inDegree', i + 1)
  {
    edges', inDegree' := AddEdges(jobs[i], edges, inDegree);
    EdgesExtended(jobs, refs, edges, edges', i);
    DegreesExtended(jobs, refs, inDegree, inDegree', i);
  }

  method BuildEdges(jobs: seq<FlowJob>, ghost refs: set<string>)
      returns (edges: map<string, seq<string>>, inDegree: map<string, int>)
    requires DistinctRefs(jobs) && refs == Refs(jobs) && forall j | 0 <= j < |jobs| :: DependsOk(refs, jobs[j])
    ensures EdgesOf(jobs, refs, edges, |jobs|) && DegreesOf(jobs, refs, inDegree, |jobs|)
  {
    edges, inDegree := EmptyEdges(jobs, refs);
    for i := 0 to |jobs|
      invariant EdgesOf(jobs, refs, edges, i) && DegreesOf(jobs, refs, inDegree, i)
    {
      edges, inDegree := AddJob(jobs, refs, i, edges, inDegree);
    }
  }

  // ---- Kahn's algorithm ------------------------------------------------------------------------

  function Elements(s: seq<string>): set<string>
  {
    set x | x in s
  }

  /**
   Part way through the dependents of a popped job: `degree` has counted `done` and the first `i` of
   them, and exactly the jobs it has counted down to zero have been placed in the queue or popped.
   */
  ghost predicate Relaxing(jobs: seq<FlowJob>, refs: set<string>, degree: map<string, int>, done: set<string>,
                           children: seq<string>, i: nat, placed: seq<string>)
    requires i <= |children|
  {
    && degree.Keys == refs
    && Distinct(placed)
    && (forall x | x in placed :: x in refs)
    && (forall j | 0 <= j < |jobs| ::
        jobs[j].ref in refs
        && degree[jobs[j].ref] == Unmet(jobs[j].dependsOn, done) - Count(children[..i], jobs[j].ref))
    && (forall x | x in refs :: degree[x] == 0 <==> x in placed)
  }

  ghost predicate EdgesLeft(jobs: seq<FlowJob>, done: set<string>, children: seq<string>)
  {
    forall j | 0 <= j < |jobs| :: Count(children, jobs[j].ref) <= Unmet(jobs[j].dependsOn, done)
  }

  function Placed(placed: seq<string>, child: string, degree: int): seq<string>
  {
    if degree == 0 then placed + [child] else placed
  }

  lemma RelaxOne(jobs: seq<FlowJob>, refs: set<string>, degree: map<string, int>, done: set<string>,
                 children: seq<string>, i: nat, placed: seq<string>, k: nat)
    requires i < |children| && Relaxing(jobs, refs, degree, done, children, i, placed)
    requires DistinctRefs(jobs) && EdgesLeft(jobs, done, children)
    requires k < |jobs| && jobs[k].ref == children[i]
    ensures var next := degree[children[i]] - 1;
      next >= 0 && Relaxing(jobs, refs, degree[children[i] := next], done, children, i + 1,
          Placed(placed, children[i], next))
  {
    CountPrefix(children, i, jobs[k].ref);
    var child := children[i];
    var next := degree[child] - 1;
    assert Count(children, jobs[k].ref) <= Unmet(jobs[k].dependsOn, done);
    assert child !in placed;
    var degree' := degree[child := next];
    forall j | 0 <= j < |jobs|
      ensures degree'[jobs[j].ref] == Unmet(jobs[j].dependsOn, done) - Count(children[..i + 1], jobs[j].ref)
    {
      CountNext(children, i, jobs[j].ref);
    }
  }

  /** One dependent counted down, and queued if it has nothing left to wait for. */
  method RelaxNext(jobs: seq<FlowJob>, ghost refs: set<string>, children: seq<string>, i: nat,
      degree: map<string, int>, queue: seq<string>, ghost done: set<string>, ghost popped: seq<string>)
    returns (degree': map<string, int>, queue': seq<string>)
    requires DistinctRefs(jobs) && refs == Refs(jobs) && i < |children| && children[i] in refs
    requires EdgesLeft(jobs, done, children)
    requires Relaxing(jobs, refs, degree, done, children, i, popped + queue)
    ensures Relaxing(jobs, refs, degree', done, children, i + 1, popped + queue')
  {
    var child := children[i];
    ghost var k :| 0 <= k < |jobs| && jobs[k].ref == child;
    RelaxOne(jobs, refs, degree, done, children, i, popped + queue, k);
    var next := degree[child] - 1;
    degree', queue' := degree[child := next], queue;
    if next == 0 {
      assert popped + (queue + [child]) == Placed(popped + queue, child, next);
      queue' := queue + [child];
    }
  }

  /** Counting down each dependent of a popped job, and queueing those with nothing left to wait for. */
  method Relax(jobs: seq<FlowJob>, ghost refs: set<string>, children: seq<string>, degree: map<string, int>,
      queue: seq<string>, ghost done: set<string>, ghost popped: seq<string>)
    returns (degree': map<string, int>, queue': seq<string>)
    requires DistinctRefs(jobs) && refs == Refs(jobs) && forall c | c in children :: c in refs
    requires EdgesLeft(jobs, done, children)
    requires Relaxing(jobs, refs, degree, done, children, 0, popped + queue)
    ensures Relaxing(jobs, refs, degree', done, children, |children|, popped + queue')
  {
    degree', queue' := degree, queue;
    for i := 0 to |children|
      invariant Relaxing(jobs, refs, degree', done, children, i, popped + queue')
    {
      degree', queue' := RelaxNext(jobs, refs, children, i, degree', queue', done, popped);
    }
  }

  /** Between pops: `order` is topological so far, and the queue holds the jobs it has made ready. */
  ghost predicate Sorting(jobs: seq<FlowJob>, refs: set<string>, degree: map<string, int>, order: seq<string>,
      queue: seq<string>)
  {
    && Relaxing(jobs, refs, degree, Elements(order), [], 0, order + queue)
    && forall i, j | 0 <= i < |order| && 0 <= j < |jobs| && jobs[j].ref == order[i] ::
        DoneBefore(jobs[j].dependsOn, order, i)
  }

  ghost predicate DoneBefore(deps: seq<string>, order: seq<string>, i: nat)
    requires i <= |order|
  {
    forall d | d in deps :: d in order[..i]
  }

  lemma StartSorting(jobs: seq<FlowJob>, refs: set<string>, degree: map<string, int>, queue: seq<string>)
    requires refs == Refs(jobs) && DegreesOf(jobs, refs, degree, |jobs|) && Distinct(queue)
    requires forall x | x in queue :: x in refs
    requires forall x | x in refs :: degree[x] == 0 <==> x in queue
    ensures Sorting(jobs, refs, degree, [], queue)
  {
    assert [] + queue == queue;
    assert Elements([]) == {};
    forall j | 0 <= j < |jobs| ensures degree[jobs[j].ref] == Unmet(jobs[j].dependsOn, {}) {
      UnmetNone(jobs[j].dependsOn);
    }
  }

  /** Popping the head of the queue leaves its dependents to be counted down. */
  lemma PopHead(jobs: seq<FlowJob>, refs: set<string>, edges: map<string, seq<string>>, degree: map<string, int>,
      order: seq<string>, queue: seq<string>)
    requires EdgesOf(jobs, refs, edges, |jobs|) && Sorting(jobs, refs, degree, order, queue) && queue != []
    ensures queue[0] in refs && queue[0] !in Elements(order)
    ensures EdgesLeft(jobs, Elements(order), edges[queue[0]]) && forall c | c in edges[queue[0]] :: c in refs
    ensures Relaxing(jobs, refs, degree, Elements(order), edges[queue[0]], 0, (order + [queue[0]]) + queue[1..])
  {
    var current := queue[0];
    assert (order + queue)[|order|] == current;
    assert forall i | 0 <= i < |order| :: (order + queue)[i] == order[i] && order[i] != current;
    assert (order + [current]) + queue[1..] == order + queue;
    assert ListsDependents(jobs, refs, edges[current], current, |jobs|);
    forall j | 0 <= j < |jobs| ensures Count(edges[current], jobs[j].ref) <= Unmet(jobs[j].dependsOn, Elements(order)) {
      UnmetDone(jobs[j].dependsOn, Elements(order), current);
    }
  }

  lemma PopDone(jobs: seq<FlowJob>, refs: set<string>, edges: map<string, seq<string>>, degree: map<string, int>,
                degree': map<string, int>, order: seq<string>, queue: seq<string>, queue': seq<string>)
    requires EdgesOf(jobs, refs, edges, |jobs|) && Sorting(jobs, refs, degree, order, queue) && queue != []
    requires queue[0] in refs && queue[0] !in Elements(order)
    requires Relaxing(jobs, refs, degree', Elements(order), edges[queue[0]], |edges[queue[0]]|,
        (order + [queue[0]]) + queue')
    ensures Sorting(jobs, refs, degree', order + [queue[0]], queue')
  {
    var current := queue[0];
    assert current in order + queue;
    var order' := order + [current];
    var children := edges[current];
    assert children[..|children|] == children;
    assert Elements(order') == Elements(order) + {current};
    assert ListsDependents(jobs, refs, children, current, |jobs|);
    forall j | 0 <= j < |jobs| ensures degree'[jobs[j].ref] == Unmet(jobs[j].dependsOn, Elements(order')) {
      UnmetDone(jobs[j].dependsOn, Elements(order), current);
    }
    forall i, j | 0 <= i < |order'| && 0 <= j < |jobs|
        && jobs[j].ref == order'[i] ensures DoneBefore(jobs[j].dependsOn, order', i) {
      if i < |order| {
        assert DoneBefore(jobs[j].dependsOn, order, i);
        assert order'[..i] == order[..i];
      } else {
        UnmetZero(jobs[j].dependsOn, Elements(order));
        assert order'[..i] == order;
      }
    }
  }

  /** The jobs the sort never reached each wait for another of them. */
  ghost predicate Stuck(jobs: seq<FlowJob>, left: set<string>)
  {
    && left != {} && left <= Refs(jobs)
    && forall x {:trigger StuckBehind(jobs, left, x)} | x in left :: StuckBehind(jobs, left, x)
  }

  ghost predicate StuckBehind(jobs: seq<FlowJob>, left: set<string>, x: string)
  {
    exists p :: p in left && Edge(jobs, p, x)
  }

  lemma LeftoverWaits(jobs: seq<FlowJob>, refs: set<string>, deps: seq<string>, done: set<string>) returns (p: string)
    requires Unmet(deps, done) != 0 && forall d | d in deps :: d in refs
    ensures p in deps && p in refs - done
  {
    UnmetZero(deps, done);
    p :| p in deps && p !in done;
  }

  /** What the counts say of one job: it has been placed, or one of its dependencies has not been popped. */
  lemma PlacedOrWaiting(jobs: seq<FlowJob>, refs: set<string>, degree: map<string, int>, order: seq<string>, j: nat)
    requires j < |jobs| && Sorting(jobs, refs, degree, order, []) && DependsOk(refs, jobs[j])
    ensures jobs[j].ref in Elements(order) || exists p :: p in jobs[j].dependsOn && p in refs - Elements(order)
  {
    assert order + [] == order;
    if jobs[j].ref !in Elements(order) {
      assert degree[jobs[j].ref] == Unmet(jobs[j].dependsOn, Elements(order));
      var p := LeftoverWaits(jobs, refs, jobs[j].dependsOn, Elements(order));
    }
  }

  lemma LeftoversAreStuck(jobs: seq<FlowJob>, left: set<string>)
    requires left != {} && left <= Refs(jobs)
    requires forall j | 0 <= j < |jobs| :: jobs[j].ref in left ==> exists p :: p in jobs[j].dependsOn && p in left
    ensures Stuck(jobs, left)
  {
    forall x | x in left ensures StuckBehind(jobs, left, x) {
      var j :| 0 <= j < |jobs| && jobs[j].ref == x;
      var p :| p in jobs[j].dependsOn && p in left;
      assert jobs[j] in jobs;
      assert Edge(jobs, p, x);
    }
  }

  lemma SortedIsTopological(jobs: seq<FlowJob>, refs: set<string>, degree: map<string, int>, order: seq<string>)
    requires refs == Refs(jobs) && Sorting(jobs, refs, degree, order, []) && refs == Elements(order)
        && DistinctRefs(jobs)
    ensures Topological(jobs, order)
  {
    assert order + [] == order;
    forall i, p | 0 <= i < |order| && Edge(jobs, p, order[i]) ensures p in order[..i] {
      var job :| job in jobs && job.ref == order[i] && p in job.dependsOn;
      var j :| 0 <= j < |jobs| && jobs[j] == job;
      assert DoneBefore(jobs[j].dependsOn, order, i);
    }
  }

  method PopNext(jobs: seq<FlowJob>, ghost refs: set<string>, edges: map<string, seq<string>>, degree: map<string, int>,
                 ghost order: seq<string>, queue: seq<string>)
    returns (degree': map<string, int>, queue': seq<string>)
    requires DistinctRefs(jobs) && refs == Refs(jobs)
    requires EdgesOf(jobs, refs, edges, |jobs|) && Sorting(jobs, refs, degree, order, queue) && queue != []
    ensures queue[0] in refs - Elements(order)
    ensures Sorting(jobs, refs, degree', order + [queue[0]], queue')
  {
    PopHead(jobs, refs, edges, degree, order, queue);
    degree', queue' := Relax(jobs, refs, edges[queue[0]], degree, queue[1..], Elements(order), order + [queue[0]]);
    PopDone(jobs, refs, edges, degree, degree', order, queue, queue');
  }

  /** The jobs in the order the sort pops them. `visited` is how many that is. */
  method TopologicalSort(jobs: seq<FlowJob>, ghost refs: set<string>, edges: map<string, seq<string>>,
      inDegree: map<string, int>)
    returns (visited: nat, ghost order: seq<string>)
    requires DistinctRefs(jobs) && refs == Refs(jobs) && forall j | 0 <= j < |jobs| :: DependsOk(refs, jobs[j])
    requires EdgesOf(jobs, refs, edges, |jobs|) && DegreesOf(jobs, refs, inDegree, |jobs|)
    ensures visited == |order| <= |jobs| && (visited == |jobs| ==> Acyclic(jobs))
    ensures visited == |jobs| ==> Topological(jobs, order)
    ensures visited != |jobs| ==> Stuck(jobs, refs - Elements(order))
  {
    var queue := ReadyJobs(jobs, refs, inDegree);
    StartSorting(jobs, refs, inDegree, queue);
    ghost var degree;
    visited, order, degree := Drain(jobs, refs, edges, inDegree, queue);
    SortEnds(jobs, refs, degree, order);
    if visited == |jobs| {
      TopologicalIsAcyclic(jobs, order);
    }
  }

  method Drain(jobs: seq<FlowJob>, ghost refs: set<string>, edges: map<string, seq<string>>, inDegree: map<string,
      int>, ready: seq<string>)
    returns (visited: nat, ghost order: seq<string>, degree: map<string, int>)
    requires DistinctRefs(jobs) && refs == Refs(jobs)
    requires EdgesOf(jobs, refs, edges, |jobs|) && Sorting(jobs, refs, inDegree, [], ready)
    ensures visited == |order| && Sorting(jobs, refs, degree, order, [])
  {
    var queue := ready;
    degree, order, visited := inDegree, [], 0;
    while |queue| > 0
      invariant Sorting(jobs, refs, degree, order, queue)
      invariant visited == |order|
      decreases refs - Elements(order)
    {
      ghost var current := queue[0];
      degree, queue := PopNext(jobs, refs, edges, degree, order, queue);
      visited := visited + 1;
      OneFewer(refs, order, current);
      order := order + [current];
    }
    assert queue == [];
  }

  lemma OneFewer(refs: set<string>, order: seq<string>, current: string)
    requires current in refs - Elements(order)
    ensures refs - Elements(order + [current]) < refs - Elements(order)
  {
    assert Elements(order + [current]) == Elements(order) + {current};
  }

  /** With the queue empty, either every job was popped or what is left is stuck. */
  lemma SortEnds(jobs: seq<FlowJob>, refs: set<string>, degree: map<string, int>, order: seq<string>)
    requires DistinctRefs(jobs) && refs == Refs(jobs) && forall j | 0 <= j < |jobs| :: DependsOk(refs, jobs[j])
    requires Sorting(jobs, refs, degree, order, [])
    ensures |order| <= |jobs|
    ensures |order| == |jobs| ==> Topological(jobs, order)
    ensures |order| != |jobs| ==> Stuck(jobs, refs - Elements(order))
  {
    assert order + [] == order;
    assert Elements(order) <= refs;
    AllPopped(jobs, order);
    if refs == Elements(order) {
      SortedIsTopological(jobs, refs, degree, order);
    } else {
      forall j | 0 <= j < |jobs| && jobs[j].ref in refs - Elements(order)
        ensures exists p :: p in jobs[j].dependsOn && p in refs - Elements(order)
      {
        PlacedOrWaiting(jobs, refs, degree, order, j);
      }
      LeftoversAreStuck(jobs, refs - Elements(order));
    }
  }

  method ReadyJobs(jobs: seq<FlowJob>, ghost refs: set<string>, degree: map<string, int>) returns (queue: seq<string>)
    requires DistinctRefs(jobs) && refs == Refs(jobs) && degree.Keys == refs
    ensures Distinct(queue) && forall x | x in queue :: x in refs
    ensures forall x | x in refs :: degree[x] == 0 <==> x in queue
  {
    queue := [];
    for i := 0 to |jobs|
      invariant Distinct(queue)
      invariant forall x | x in queue :: exists k :: 0 <= k < i && jobs[k].ref == x
      invariant forall k | 0 <= k < i :: degree[jobs[k].ref] == 0 <==> jobs[k].ref in queue
    {
      assert jobs[i].ref !in queue;
      if degree[jobs[i].ref] == 0 {
        queue := queue + [jobs[i].ref];
      }
    }
  }

  lemma {:induction false} DistinctSize(s: seq<string>)
    requires Distinct(s)
    ensures |Elements(s)| == |s|
  {
    if s != [] {
      var n := |s| - 1;
      DistinctSize(s[..n]);
      assert s == s[..n] + [s[n]];
      assert Elements(s) == Elements(s[..n]) + {s[n]};
    }
  }

  /** As many jobs popped as there are is every job popped. */
  lemma AllPopped(jobs: seq<FlowJob>, order: seq<string>)
    requires DistinctRefs(jobs) && Distinct(order) && Elements(order) <= Refs(jobs)
    ensures |order| <= |jobs|
    ensures |order| == |jobs| <==> Elements(order) == Refs(jobs)
  {
    var names := seq(|jobs|, i requires 0 <= i < |jobs| => jobs[i].ref);
    forall x ensures x in Elements(names) <==> x in Refs(jobs) {
      if x in Refs(jobs) {
        var i :| 0 <= i < |jobs| && jobs[i].ref == x;
        assert names[i] == x;
      }
    }
    assert Elements(names) == Refs(jobs);
    DistinctSize(names);
    DistinctSize(order);
    Sets.SubsetSize(Elements(order), Refs(jobs));
    if |order| == |jobs| {
      Sets.SameSize(Elements(order), Refs(jobs));
    }
  }
}
