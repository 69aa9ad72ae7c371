/**
 Naming the cycle of a rejected flow (`findDependencyCycle` in src/attorney.ts): a depth-first search
 along the dependents that stops at the first job it meets again on its own path. And the whole of
 `validateFlowJobs`, which sorts first and searches only if the sort left jobs over.
 */
module FlowCycle {
  import opened FlowGraph
  import opened Options

  /** Each step of `path` goes from a job to one of its dependents. */
  ghost predicate Follows(edges: map<string, seq<string>>, path: seq<string>)
  {
    forall i | 0 <= i < |path| - 1 :: path[i] in edges && path[i + 1] in edges[path[i]]
  }

  /** A walk that comes back to where it started and meets no other job twice. */
  ghost predicate SimpleCycle(edges: map<string, seq<string>>, path: seq<string>)
  {
    && |path| >= 2 && path[0] == path[|path| - 1]
    && Distinct(path[..|path| - 1])
    && Follows(edges, path)
  }

  /** Every dependent of a finished job finished before it. */
  ghost predicate FinishedInOrder(edges: map<string, seq<string>>, finished: seq<string>)
  {
    && Distinct(finished)
    && forall i | 0 <= i < |finished| :: finished[i] in edges && forall c | c in edges[finished[i]] ::
        c in finished[..i]
  }

  function IndexOf(s: seq<string>, x: string): (i: nat)
    requires x in s
    ensures i < |s| && s[i] == x && x !in s[..i]
  {
    if s[0] == x then 0 else IndexOf(s[1..], x) + 1
  }

  /** What the search keeps: the path it is on, and behind it the jobs it has finished. */
  ghost predicate Searching(edges: map<string, seq<string>>, visiting: set<string>, visited: set<string>,
      path: seq<string>, finished: seq<string>)
  {
    && visiting == Elements(path) && Distinct(path) && Follows(edges, path)
    && visiting <= edges.Keys
    && visited == Elements(finished) && FinishedInOrder(edges, finished)
    && visiting !! visited
  }

  lemma Descend(edges: map<string, seq<string>>, visiting: set<string>, visited: set<string>, path: seq<string>,
      finished: seq<string>, ref: string)
    requires Searching(edges, visiting, visited, path, finished)
    requires ref in edges && ref !in visiting && ref !in visited && (path != [] ==> ref in edges[path[|path| - 1]])
    ensures Searching(edges, visiting + {ref}, visited, path + [ref], finished)
    ensures edges.Keys - (visiting + {ref}) < edges.Keys - visiting
  {
    assert Elements(path + [ref]) == Elements(path) + {ref};
    assert ref in edges.Keys - visiting;
  }

  lemma Ascend(edges: map<string, seq<string>>, visiting: set<string>, visited: set<string>, path: seq<string>,
      finished: seq<string>, ref: string)
    requires Searching(edges, visiting + {ref}, visited, path + [ref], finished) && ref !in visiting
    requires forall k | 0 <= k < |edges[ref]| :: edges[ref][k] in visited
    ensures Searching(edges, visiting, visited + {ref}, path, finished + [ref])
  {
    assert Elements(path + [ref]) == Elements(path) + {ref};
    assert ref !in path by {
      assert (path + [ref])[|path|] == ref;
      assert forall i | 0 <= i < |path| :: (path + [ref])[i] == path[i];
    }
    assert Elements(path) == visiting;
    assert Distinct(path) && Follows(edges, path) by {
      assert forall i | 0 <= i < |path| :: (path + [ref])[i] == path[i];
    }
    FinishOne(edges, finished, ref);
  }

  class CycleFinder {
    const edges: map<string, seq<string>>
    var visiting: set<string>
    var visited: set<string>
    var path: seq<string>
    /** The visited jobs in the order their visit ended. */
    ghost var finished: seq<string>

    ghost predicate Valid()
      reads this
    {
      Searching(edges, visiting, visited, path, finished)
    }

    constructor (edges: map<string, seq<string>>)
      ensures this.edges == edges && Valid() && path == [] && finished == []
    {
      this.edges := edges;
      visiting, visited, path, finished := {}, {}, [], [];
    }

    method Visit(ref: string) returns (cycle: Option<seq<string>>)
      requires Valid() && ref in edges
      requires Closed(edges)
      requires path != [] ==> ref in edges[path[|path| - 1]]
      modifies this
      ensures cycle.Some? ==> SimpleCycle(edges, cycle.value)
      ensures cycle == None ==> Valid() && path == old(path) && old(visited) <= visited && ref in visited
      decreases edges.Keys - visiting
    {
      if ref in visiting {
        var start := IndexOf(path, ref);
        cycle := Some(path[start..] + [ref]);
        CutIsCycle(edges, path, start, ref);
        return;
      }
      if ref in visited {
        return None;
      }
      ghost var before, above := visiting, path;
      Descend(edges, visiting, visited, path, finished, ref);
      visiting := visiting + {ref};
      path := path + [ref];
      for i := 0 to |edges[ref]|
        invariant Valid() && path == above + [ref] && visiting == before + {ref} && old(visited) <= visited
        invariant forall k | 0 <= k < i :: edges[ref][k] in visited
      {
        cycle := Visit(edges[ref][i]);
        if cycle.Some? {
          return;
        }
      }
      Ascend(edges, before, visited, above, finished, ref);
      path := path[..|path| - 1];
      visiting := visiting - {ref};
      visited := visited + {ref};
      finished := finished + [ref];
      assert path == above && visiting == before;
      return None;
    }
  }

  /** The part of the path from a job met again is a cycle. */
  lemma CutIsCycle(edges: map<string, seq<string>>, path: seq<string>, start: nat, ref: string)
    requires Distinct(path) && Follows(edges, path) && start < |path| && path[start] == ref
    requires path[|path| - 1] in edges && ref in edges[path[|path| - 1]]
    ensures SimpleCycle(edges, path[start..] + [ref])
  {
    var cycle := path[start..] + [ref];
    assert cycle[..|cycle| - 1] == path[start..];
    forall i | 0 <= i < |cycle| - 1 ensures cycle[i] in edges && cycle[i + 1] in edges[cycle[i]] {
      assert cycle[i] == path[start + i];
      if i < |cycle| - 2 {
        assert cycle[i + 1] == path[start + i + 1];
      }
    }
  }

  lemma FinishOne(edges: map<string, seq<string>>, finished: seq<string>, ref: string)
    requires FinishedInOrder(edges, finished) && ref in edges && ref !in finished
    requires forall k | 0 <= k < |edges[ref]| :: edges[ref][k] in Elements(finished)
    ensures FinishedInOrder(edges, finished + [ref])
    ensures Elements(finished + [ref]) == Elements(finished) + {ref}
  {
    var next := finished + [ref];
    forall i | 0 <= i < |next| ensures next[i] in edges && forall c | c in edges[next[i]] :: c in next[..i] {
      if i < |finished| {
        assert next[..i] == finished[..i];
      } else {
        assert next[..i] == finished;
      }
    }
  }

  /** Jobs each of which is a dependent of another of them. */
  ghost predicate Waiting(edges: map<string, seq<string>>, left: set<string>)
  {
    && left != {} && left <= edges.Keys
    && forall x {:trigger Awaits(edges, left, x)} | x in left :: Awaits(edges, left, x)
  }

  ghost predicate Awaits(edges: map<string, seq<string>>, left: set<string>, x: string)
    requires left <= edges.Keys
  {
    exists p :: p in left && x in edges[p]
  }

  ghost predicate Closed(edges: map<string, seq<string>>)
  {
    forall p, c | p in edges && c in edges[p] :: c in edges
  }

  /**
   The search from each job in turn. It finds a cycle whenever some jobs are waiting in a circle, which
   is when it is called: had it found none, the waiting job that finished last would wait for nothing.
   */
  method FindDependencyCycle(keys: seq<string>, edges: map<string, seq<string>>, ghost left: set<string>)
      returns (cycle: seq<string>)
    requires Elements(keys) == edges.Keys && Closed(edges) && Waiting(edges, left)
    ensures SimpleCycle(edges, cycle)
  {
    var finder := new CycleFinder(edges);
    for i := 0 to |keys|
      invariant finder.Valid() && finder.edges == edges && finder.path == []
      invariant forall k | 0 <= k < i :: keys[k] in finder.visited
    {
      assert keys[i] in Elements(keys);
      var found := finder.Visit(keys[i]);
      if found.Some? {
        return found.value;
      }
    }
    assert left <= Elements(finder.finished);
    NoneWaiting(edges, finder.finished, left);
    assert false;
  }

  /** If every job finished in order, none of them can be waiting in a circle. */
  lemma NoneWaiting(edges: map<string, seq<string>>, finished: seq<string>, left: set<string>)
    requires FinishedInOrder(edges, finished) && left <= Elements(finished)
    ensures !Waiting(edges, left)
  {
    if Waiting(edges, left) {
      var x :| x in left;
      var i :| 0 <= i < |finished| && finished[i] == x;
      ClimbForever(edges, finished, left, i);
    }
  }

  lemma {:induction false} ClimbForever(edges: map<string, seq<string>>, finished: seq<string>, left: set<string>,
      i: nat)
    requires FinishedInOrder(edges, finished) && left <= Elements(finished) && Waiting(edges, left)
    requires i < |finished| && finished[i] in left
    ensures false
    decreases |finished| - i
  {
    assert Awaits(edges, left, finished[i]);
    var p :| p in left && finished[i] in edges[p];
    var k :| 0 <= k < |finished| && finished[k] == p;
    assert finished[i] in finished[..k];
    ClimbForever(edges, finished, left, k);
  }

  lemma EdgesStayInside(jobs: seq<FlowJob>, refs: set<string>, edges: map<string, seq<string>>)
    requires EdgesOf(jobs, refs, edges, |jobs|)
    ensures Closed(edges)
  {
    forall p, c | p in edges && c in edges[p] ensures c in edges {
      assert ListsDependents(jobs, refs, edges[p], p, |jobs|);
    }
  }

  lemma EdgeIsListed(jobs: seq<FlowJob>, refs: set<string>, edges: map<string, seq<string>>, p: string, c: string)
    requires EdgesOf(jobs, refs, edges, |jobs|) && p in refs
    ensures Edge(jobs, p, c) ==> c in edges[p]
    ensures DistinctRefs(jobs) && c in edges[p] && c in Refs(jobs) ==> Edge(jobs, p, c)
  {
    assert ListsDependents(jobs, refs, edges[p], p, |jobs|);
    CountPositive(edges[p], c);
    if Edge(jobs, p, c) {
      var job :| job in jobs && job.ref == c && p in job.dependsOn;
      var j :| 0 <= j < |jobs| && jobs[j] == job;
      CountPositive(jobs[j].dependsOn, p);
      assert Count(edges[p], jobs[j].ref) == Count(jobs[j].dependsOn, p);
    }
    if c in edges[p] && c in Refs(jobs) {
      var j :| 0 <= j < |jobs| && jobs[j].ref == c;
      CountPositive(jobs[j].dependsOn, p);
      assert Count(edges[p], jobs[j].ref) == Count(jobs[j].dependsOn, p);
      assert jobs[j] in jobs;
    }
  }

  lemma StuckAreWaiting(jobs: seq<FlowJob>, refs: set<string>, edges: map<string, seq<string>>, left: set<string>)
    requires refs == Refs(jobs) && EdgesOf(jobs, refs, edges, |jobs|) && Stuck(jobs, left)
    ensures Waiting(edges, left)
  {
    forall x | x in left ensures Awaits(edges, left, x) {
      assert StuckBehind(jobs, left, x);
      var p :| p in left && Edge(jobs, p, x);
      EdgeIsListed(jobs, refs, edges, p, x);
    }
  }

  /** Kahn's algorithm, and the search if it does not reach every job. */
  method SortOrFindCycle(jobs: seq<FlowJob>) returns (cycle: Option<seq<string>>, ghost order: seq<string>)
    requires DistinctRefs(jobs) && forall j | 0 <= j < |jobs| :: DependsOk(Refs(jobs), jobs[j])
    ensures cycle == None ==> Topological(jobs, order)
    ensures cycle.Some? ==> ClosedWalk(jobs, cycle.value) && Distinct(cycle.value[1..])
  {
    ghost var refs := Refs(jobs);
    var edges, inDegree := BuildEdges(jobs, refs);
    var visited;
    visited, order := TopologicalSort(jobs, refs, edges, inDegree);
    if visited == |jobs| {
      return None, order;
    }
    var keys := seq(|jobs|, i requires 0 <= i < |jobs| => jobs[i].ref);
    RefsAsKeys(jobs, keys);
    EdgesStayInside(jobs, refs, edges);
    StuckAreWaiting(jobs, refs, edges, refs - Elements(order));
    var found := FindDependencyCycle(keys, edges, refs - Elements(order));
    CycleIsClosedWalk(jobs, refs, edges, found);
    cycle := Some(found);
  }

  lemma RefsAsKeys(jobs: seq<FlowJob>, keys: seq<string>)
    requires |keys| == |jobs| && forall i | 0 <= i < |jobs| :: keys[i] == jobs[i].ref
    ensures Elements(keys) == Refs(jobs)
  {
    forall x ensures x in Elements(keys) <==> x in Refs(jobs) {
      if x in Refs(jobs) {
        var i :| 0 <= i < |jobs| && jobs[i].ref == x;
        assert keys[i] == x;
      }
    }
  }

  /**
   Accepts a flow exactly when it is well formed and no job depends on itself through others, whatever
   repeats its `dependsOn` lists hold. On acceptance `order` is a topological order; a rejection says
   what is wrong, and for a cycle it names one that meets no job twice.
   */
  method ValidateFlowJobs(jobs: seq<FlowJob>) returns (e: Option<FlowError>, ghost order: seq<string>)
    ensures e == None <==> WellFormed(jobs) && Acyclic(jobs)
    ensures e == None ==> Topological(jobs, order)
    ensures e.Some? ==> Explains(jobs, e.value)
    ensures e.Some? && e.value.DependencyCycle? <==> WellFormed(jobs) && !Acyclic(jobs)
    ensures e.Some? && e.value.DependencyCycle? ==> e.value.path != [] && Distinct(e.value.path[1..])
  {
    order := [];
    e := CheckShape(jobs);
    if e.Some? {
      return;
    }
    var cycle;
    cycle, order := SortOrFindCycle(jobs);
    if cycle.Some? {
      return Some(DependencyCycle(cycle.value)), order;
    }
    TopologicalIsAcyclic(jobs, order);
  }

  lemma CycleIsClosedWalk(jobs: seq<FlowJob>, refs: set<string>, edges: map<string, seq<string>>, cycle: seq<string>)
    requires DistinctRefs(jobs) && refs == Refs(jobs) && EdgesOf(jobs, refs, edges, |jobs|) && SimpleCycle(edges, cycle)
    ensures ClosedWalk(jobs, cycle) && Distinct(cycle[1..])
  {
    EdgesStayInside(jobs, refs, edges);
    forall i | 0 <= i < |cycle| - 1 ensures Edge(jobs, cycle[i], cycle[i + 1]) {
      EdgeIsListed(jobs, refs, edges, cycle[i], cycle[i + 1]);
    }
    var n := |cycle| - 1;
    forall i, j | 0 <= i < j < n ensures cycle[1..][i] != cycle[1..][j] {
      assert cycle[..n][i + 1] == cycle[i + 1];
      if j < n - 1 {
        assert cycle[..n][j + 1] == cycle[j + 1];
      } else {
        assert cycle[..n][0] == cycle[n];
      }
    }
  }
}
