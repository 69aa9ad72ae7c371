/**
 A run in which a flow's child starts before its parent has: the child is completed while it is queued and
 blocked, restored, and fetched. `FlowRun.ForcedSkipsParentIff` says exactly when that can happen.
 */
module FlowForced {
  import opened FlowGraph
  import opened FlowRows
  import opened FlowRun
  import opened JobStates
  import Runs

  const Flow := [FlowJob("a", "q", []), FlowJob("b", "q", ["a"])]
  const Parent := Key("q", "1")
  const Child := Key("q", "2")
  const Keys := map["a" := Parent, "b" := Child]
  const Rows := [(Parent, Job(Created, false, true, 0)), (Child, Job(Created, true, false, 1))]
  const Deps := {Dep(Child, Parent)}

  lemma Accepted()
    ensures WellFormed(Flow) && Topological(Flow, ["a", "b"])
  {
    assert Flow[0].ref == "a" && Flow[1].ref == "b";
    assert Refs(Flow) == {"a", "b"};
    assert Flow[1].dependsOn == ["a"];
    assert forall p, c :: Edge(Flow, p, c) ==> p == "a" && c == "b";
    assert ["a", "b"][..1] == ["a"];
    assert (set ref | ref in ["a", "b"]) == {"a", "b"};
  }

  lemma Built()
    ensures Keyed(Flow, Keys) && DependsInside(Flow, Keys) && RowsOf(Flow, Keys, Rows) && DepsOf(Flow, Keys, Deps)
  {
    assert Elements([]) == {} && Elements(["a"]) == {"a"};
    assert Flow[1] in Flow && "a" in Flow[1].dependsOn;
    assert IsParent(Flow, "a") && !IsParent(Flow, "b");
  }

  const Submitted := State(map[Parent := Rows[0].1, Child := Rows[1].1], Deps, [Parent, Child], {}, {})

  lemma TableOfRows()
    ensures Table(Rows) == map[Parent := Rows[0].1, Child := Rows[1].1]
  {
    assert Rows[..1] == [Rows[0]];
    assert [Rows[0]][..0] == [];
    assert Table([]) == map[];
    assert Table([Rows[0]]) == map[Parent := Rows[0].1];
  }

  lemma KeysNamed()
    ensures Keys.Keys == Refs(Flow) && DistinctKeys(Keys) && forall ref | ref in ["a", "b"] :: ref in Keys
  {
    assert Flow[0].ref == "a" && Flow[1].ref == "b";
    assert Refs(Flow) == {"a", "b"};
  }

  lemma IntoEmpty(flow: seq<FlowJob>, keys: map<string, Key>, rows: seq<(Key, Job)>, deps: set<Dep>,
      sorted: seq<string>)
    requires WellFormed(flow) && Topological(flow, sorted) && (forall ref | ref in sorted :: ref in keys)
    requires keys.Keys == Refs(flow) && Keyed(flow, keys) && DependsInside(flow, keys) && DistinctKeys(keys)
    requires RowsOf(flow, keys, rows) && DepsOf(flow, keys, deps)
    ensures Submittable(Empty, flow, keys, rows, deps, sorted)
  {
  }

  lemma Submits()
    ensures Submittable(Empty, Flow, Keys, Rows, Deps, ["a", "b"])
  {
    Accepted();
    Built();
    KeysNamed();
    IntoEmpty(Flow, Keys, Rows, Deps, ["a", "b"]);
  }

  lemma Inserted()
    ensures forall ref | ref in ["a", "b"] :: ref in Keys
    ensures Empty.(jobs := Empty.jobs + Table(Rows), deps := Empty.deps + Deps,
        order := Empty.order + SortedKeys(Keys, ["a", "b"])) == Submitted
  {
    TableOfRows();
    assert SortedKeys(Keys, ["a", "b"]) == [Parent, Child];
  }

  lemma SubmittedFirst()
    ensures Reachable(Submitted, 1)
  {
    Submits();
    Inserted();
    assert Leads(Empty, Submit(Flow, Keys, Rows, Deps, ["a", "b"]), Submitted);
    Runs.OneStepMore(Empty, Follows, Empty, Submitted, 0);
  }

  lemma OneStepMore(p: State, step: Step, s: State, n: nat)
    requires Reachable(p, n) && Leads(p, step, s)
    ensures Reachable(s, n + 1)
  {
    Runs.OneStepMore(Empty, Follows, p, s, n);
  }

  lemma RestoredThird()
    ensures Reachable(CompletedAndRestored(Submitted, Child), 3)
  {
    SubmittedFirst();
    var completed := Apply(Submitted, CompleteQueued(Child));
    OneStepMore(Submitted, CompleteQueued(Child), completed, 1);
    CompleteThenRestore(Submitted, Child);
    OneStepMore(completed, Restore(Child), CompletedAndRestored(Submitted, Child), 2);
  }

  /** The child can be fetched in a reachable state in which its parent has not even started. */
  lemma ForcedJobSkipsParents() returns (s: State, d: Dep)
    ensures Reachable(s, 3) && d in s.deps && d.parent !in s.done && d.parent in s.jobs
        && s.jobs[d.parent].state == Created
    ensures Enabled(s, Fetch(d.child))
  {
    RestoredThird();
    s, d := CompletedAndRestored(Submitted, Child), Dep(Child, Parent);
    assert s.done == {Child} && Parent != Child;
    assert s.jobs[Child] == Job(Created, false, false, 0) && s.jobs[Parent] == Rows[0].1;
  }
}
