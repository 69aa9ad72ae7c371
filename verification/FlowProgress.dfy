/**
 Freedom from deadlock, flow by flow: whatever has become of the others, an unfinished job waits for one that
 can move or that has failed, and a flow in which nothing has failed can be brought to its end.
 */
module FlowProgress {
  import opened FlowRows
  import opened FlowRun
  import opened JobStates
  import opened Runs
  import Sets

  /** What there is to do about a job: it runs, it can be fetched, or it has completed and is to be resolved. */
  predicate Movable(j: Job)
  {
    j.state == Active || Fetchable(j) || Resolvable(j)
  }

  /** Each job of the path but the last is unfinished, and blocked by the next, which is a parent of it. */
  ghost predicate WaitsAlong(s: State, path: seq<Key>)
  {
    && path != [] && (forall i | 0 <= i < |path| :: path[i] in s.jobs)
    && forall i | 0 <= i < |path| - 1 ::
         s.jobs[path[i]].blocked && s.jobs[path[i]].state != Completed && Dep(path[i], path[i + 1]) in s.deps
  }

  /** A job that is blocked waits for a parent, which comes earlier. */
  lemma BlockedHasParent(s: State, k: Key, i: nat) returns (p: Key, j: nat)
    requires Inv(s) && i < |s.order| && s.order[i] == k && k in s.jobs && s.jobs[k].blocked
    ensures p in s.jobs && s.jobs[p].blocking && Dep(k, p) in s.deps
    ensures j < i && s.order[j] == p
  {
    assert CountOk(s, k);
    assert Awaited(s.jobs, s.deps, k) != {};
    p :| p in Awaited(s.jobs, s.deps, k);
    AwaitedHas(s.jobs, s.deps, k, p);
    assert ParentEarlier(s.order, Dep(k, p));
    j :| 0 <= j < i && s.order[j] == p;
  }

  lemma {:induction false} FindBlocker(s: State, k: Key, i: nat) returns (path: seq<Key>)
    requires Inv(s) && i < |s.order| && s.order[i] == k && k in s.jobs && s.jobs[k].state != Completed
    ensures WaitsAlong(s, path) && path[0] == k
    ensures var a := s.jobs[path[|path| - 1]]; Movable(a) || a.state == Failed || a.state == Cancelled
    decreases i
  {
    path := [k];
    if s.jobs[k].blocked && s.jobs[k].state in {Created, Retry} {
      var p, j := BlockedHasParent(s, k, i);
      if s.jobs[p].state == Completed {
        path := [k, p];
      } else {
        var rest := FindBlocker(s, p, j);
        path := [k] + rest;
      }
    }
  }

  lemma Blocker(s: State, k: Key) returns (path: seq<Key>)
    requires Inv(s) && k in s.jobs && s.jobs[k].state != Completed
    ensures WaitsAlong(s, path) && path[0] == k
    ensures var a := s.jobs[path[|path| - 1]]; Movable(a) || a.state == Failed || a.state == Cancelled
  {
    var i :| 0 <= i < |s.order| && s.order[i] == k;
    path := FindBlocker(s, k, i);
  }

  /**
   No job of any flow is ever left waiting for nothing. In every reachable state, whatever has failed, been
   cancelled, retried or restored in this flow or another, an unfinished job waits, through parents that are
   themselves unfinished and blocked, for one that can move, or that has failed or been cancelled.
   */
  lemma FlowsNeverDeadlock(s: State, n: nat, k: Key) returns (path: seq<Key>)
    requires Reachable(s, n) && k in s.jobs && s.jobs[k].state != Completed
    ensures WaitsAlong(s, path) && path[0] == k
    ensures var a := s.jobs[path[|path| - 1]]; Movable(a) || a.state == Failed || a.state == Cancelled
  {
    ReachableInv(s, n);
    path := Blocker(s, k);
  }

  /** A set of jobs that depend on nothing outside it, such as one flow's. */
  ghost predicate Own(s: State, own: set<Key>)
  {
    own <= s.jobs.Keys && forall d | d in s.deps && d.child in own :: d.parent in own
  }

  /** None of them has failed or been cancelled. */
  ghost predicate NoneFailed(s: State, own: set<Key>)
  {
    forall k | k in own && k in s.jobs :: s.jobs[k].state != Failed && s.jobs[k].state != Cancelled
  }

  lemma {:induction false} PathStaysInside(s: State, own: set<Key>, path: seq<Key>, i: nat)
    requires Own(s, own) && WaitsAlong(s, path) && path[0] in own && i < |path|
    ensures path[i] in own
  {
    if i > 0 {
      PathStaysInside(s, own, path, i - 1);
      assert Dep(path[i - 1], path[i]).child in own;
    }
  }

  lemma OwnBlocker(s: State, own: set<Key>, k: Key) returns (a: Key)
    requires Inv(s) && Own(s, own) && NoneFailed(s, own) && k in own && s.jobs[k].state != Completed
    ensures a in own && Movable(s.jobs[a])
  {
    var path := Blocker(s, k);
    PathStaysInside(s, own, path, |path| - 1);
    a := path[|path| - 1];
  }

  /** So a flow with a job left, none of which has failed, has a job of its own that can move. */
  lemma OwnJobCanMove(s: State, n: nat, own: set<Key>, k: Key) returns (a: Key)
    requires Reachable(s, n) && Own(s, own) && NoneFailed(s, own) && k in own && s.jobs[k].state != Completed
    ensures a in own && Movable(s.jobs[a])
  {
    ReachableInv(s, n);
    a := OwnBlocker(s, own, k);
  }

  function Unfetched(s: State, own: set<Key>): set<Key>
  {
    set k | k in s.jobs && k in own && (s.jobs[k].state == Created || s.jobs[k].state == Retry)
  }

  function NotCompleted(s: State, own: set<Key>): set<Key>
  {
    set k | k in s.jobs && k in own && s.jobs[k].state != Completed
  }

  function Unresolved(s: State, own: set<Key>): set<Key>
  {
    set k | k in s.jobs && k in own && s.jobs[k].blocking
  }

  /** What is left to do for these jobs: to fetch, to complete and to resolve. */
  function WorkLeft(s: State, own: set<Key>): nat
  {
    |Unfetched(s, own)| + |NotCompleted(s, own)| + |Unresolved(s, own)|
  }

  /** Fetching, completing and resolving. */
  predicate IsMove(step: Step)
  {
    step.Fetch? || step.Complete? || step.Resolve?
  }

  predicate Touches(step: Step, own: set<Key>)
  {
    match step
    case Fetch(k) => k in own
    case Complete(k) => k in own
    case Resolve(batch) => batch * own != {}
    case _ => false
  }

  lemma ResolvingLeavesLess(s: State, own: set<Key>, batch: set<Key>)
    requires Enabled(s, Resolve(batch))
    ensures WorkLeft(Apply(s, Resolve(batch)), own) <= WorkLeft(s, own)
    ensures batch * own != {} ==> WorkLeft(Apply(s, Resolve(batch)), own) < WorkLeft(s, own)
  {
    var s' := Apply(s, Resolve(batch));
    ResolvingKeepsStates(s, s', own, batch);
    Sets.SubsetSize(Unresolved(s', own), Unresolved(s, own));
    if k :| k in batch * own {
      assert k in Unresolved(s, own) && k !in Unresolved(s', own);
      Sets.SubsetSize(Unresolved(s', own), Unresolved(s, own) - {k});
    }
  }

  lemma ResolvingKeepsStates(s: State, s': State, own: set<Key>, batch: set<Key>)
    requires s' == s.(jobs := Resolved(s.jobs, s.deps, batch))
    ensures Unfetched(s', own) == Unfetched(s, own) && NotCompleted(s', own) == NotCompleted(s, own)
    ensures Unresolved(s', own) == Unresolved(s, own) - batch
    ensures NoneFailed(s, own) ==> NoneFailed(s', own)
  {
    forall k | k in s.jobs ensures s'.jobs[k].state == s.jobs[k].state
        && (s'.jobs[k].blocking <==> s.jobs[k].blocking && k !in batch) {
      ResolvedFlags(s.jobs, s.deps, batch, k);
    }
  }

  lemma FetchingLeavesLess(s: State, own: set<Key>, k: Key)
    requires k in s.jobs && Fetchable(s.jobs[k])
    ensures WorkLeft(Moved(s, k, Active), own) == WorkLeft(s, own) - if k in own then 1 else 0
  {
    var s' := Moved(s, k, Active);
    assert Unresolved(s', own) == Unresolved(s, own);
    assert NotCompleted(s', own) == NotCompleted(s, own);
    assert Unfetched(s', own) == Unfetched(s, own) - {k};
    assert k in Unfetched(s, own) <==> k in own;
  }

  lemma CompletingLeavesLess(s: State, own: set<Key>, k: Key)
    requires k in s.jobs && s.jobs[k].state == Active
    ensures WorkLeft(Moved(s, k, Completed), own) == WorkLeft(s, own) - if k in own then 1 else 0
  {
    var s' := Moved(s, k, Completed);
    assert Unresolved(s', own) == Unresolved(s, own);
    assert Unfetched(s', own) == Unfetched(s, own);
    assert NotCompleted(s', own) == NotCompleted(s, own) - {k};
    assert k in NotCompleted(s, own) <==> k in own;
  }

  lemma SameDone(s: State, done: set<Key>, own: set<Key>)
    ensures WorkLeft(s.(done := done), own) == WorkLeft(s, own)
  {
    assert Unfetched(s.(done := done), own) == Unfetched(s, own);
    assert NotCompleted(s.(done := done), own) == NotCompleted(s, own);
    assert Unresolved(s.(done := done), own) == Unresolved(s, own);
  }

  /**
   Each such move gets it done: fetching, completing and resolving a job of a flow leaves that flow less to
   do, and the moves of any other flow leave it no more.
   */
  lemma WorkDecreases(s: State, own: set<Key>, step: Step)
    requires Enabled(s, step) && IsMove(step)
    ensures WorkLeft(Apply(s, step), own) <= WorkLeft(s, own)
    ensures Touches(step, own) ==> WorkLeft(Apply(s, step), own) < WorkLeft(s, own)
    ensures Own(s, own) ==> Own(Apply(s, step), own)
    ensures NoneFailed(s, own) ==> NoneFailed(Apply(s, step), own)
  {
    match step
    case Fetch(k) => FetchingLeavesLess(s, own, k);
    case Complete(k) =>
      CompletingLeavesLess(s, own, k);
      SameDone(Moved(s, k, Completed), s.done + {k}, own);
    case Resolve(batch) =>
      ResolvingLeavesLess(s, own, batch);
      ResolvingKeepsStates(s, Apply(s, step), own, batch);
  }

  lemma OwnMove(s: State, own: set<Key>, k: Key) returns (step: Step)
    requires Inv(s) && Own(s, own) && NoneFailed(s, own) && k in own && s.jobs[k].state != Completed
    ensures IsMove(step) && Enabled(s, step) && Touches(step, own)
  {
    var a := OwnBlocker(s, own, k);
    step := if s.jobs[a].state == Active then Complete(a) else if Fetchable(s.jobs[a]) then Fetch(a) else Resolve({a});
    assert a in {a} * own;
  }

  /** Some job of these makes a move. */
  ghost predicate Moves(s: State, own: set<Key>, next: State)
  {
    exists step :: IsMove(step) && Touches(step, own) && Leads(s, step, next)
  }

  lemma NextMove(s: State, own: set<Key>, k: Key) returns (next: State)
    requires Inv(s) && Own(s, own) && NoneFailed(s, own) && k in own && s.jobs[k].state != Completed
    ensures Moves(s, own, next) && Inv(next) && Own(next, own) && NoneFailed(next, own)
    ensures WorkLeft(next, own) < WorkLeft(s, own)
  {
    var step := OwnMove(s, own, k);
    next := Apply(s, step);
    WorkDecreases(s, own, step);
    NextInv(s, step);
    assert Leads(s, step, next);
  }

  ghost function MovesOf(own: set<Key>): (State, State) -> bool
  {
    (p, q) => Moves(p, own, q)
  }

  ghost predicate AllCompleted(s: State, own: set<Key>)
  {
    own <= s.jobs.Keys && forall k | k in own :: s.jobs[k].state == Completed
  }

  ghost predicate CanFinish(s: State, own: set<Key>)
  {
    Inv(s) && Own(s, own) && NoneFailed(s, own)
  }

  lemma NotFinishedMoves(s: State, own: set<Key>)
    requires CanFinish(s, own) && !AllCompleted(s, own)
    ensures exists q :: MovesOf(own)(s, q) && CanFinish(q, own) && WorkLeft(q, own) < WorkLeft(s, own)
  {
    var k :| k in own && s.jobs[k].state != Completed;
    var next := NextMove(s, own, k);
    assert MovesOf(own)(s, next) && CanFinish(next, own);
  }

  /**
   And from every reachable state, moves of its own alone lead a flow none of whose jobs has failed to the
   end, in no more of them than there is work left: every job completed.
   */
  lemma FlowCanFinish(s: State, n: nat, own: set<Key>) returns (s': State, m: nat)
    requires Reachable(s, n) && Own(s, own) && NoneFailed(s, own)
    ensures LeadsTo(s, MovesOf(own), s', m) && m <= WorkLeft(s, own)
    ensures AllCompleted(s', own)
  {
    ReachableInv(s, n);
    var good, goal := x => CanFinish(x, own), x => AllCompleted(x, own);
    var work: State -> nat := x => WorkLeft(x, own);
    forall p | good(p) && !goal(p) ensures exists q :: MovesOf(own)(p, q) && good(q) && work(q) < work(p) {
      NotFinishedMoves(p, own);
      var q :| MovesOf(own)(p, q) && CanFinish(q, own) && WorkLeft(q, own) < WorkLeft(p, own);
      assert good(q) && work(q) < work(p);
    }
    s', m := GoalReached(MovesOf(own), good, goal, work, s);
  }

  // ---- Flows in which something has failed -----------------------------------------------------

  function Stalled(s: State, own: set<Key>): set<Key>
  {
    set k | k in s.jobs && k in own && (s.jobs[k].state == Failed || s.jobs[k].state == Cancelled)
  }

  /** What it takes to finish, failed and cancelled jobs brought back included. */
  function Effort(s: State, own: set<Key>): nat
  {
    WorkLeft(s, own) + 2 * |Stalled(s, own)|
  }

  /** A move of these jobs, or one of them brought back: `retry()` if it has failed, `resume()` if it was cancelled. */
  ghost predicate Recovers(s: State, own: set<Key>, next: State)
  {
    || Moves(s, own, next)
    || (exists k :: k in own && (Leads(s, RetryFailed(k), next) || Leads(s, Resume(k), next)))
  }

  ghost function RecoversOf(own: set<Key>): (State, State) -> bool
  {
    (p, q) => Recovers(p, own, q)
  }

  lemma MoveKeepsStalled(s: State, own: set<Key>, step: Step)
    requires Enabled(s, step) && IsMove(step)
    ensures Stalled(Apply(s, step), own) == Stalled(s, own)
  {
    if step.Resolve? {
      forall k | k in s.jobs ensures Apply(s, step).jobs[k].state == s.jobs[k].state {
        ResolvedFlags(s.jobs, s.deps, step.batch, k);
      }
    }
  }

  lemma BroughtBackSets(s: State, own: set<Key>, k: Key, state: JobState)
    requires k in s.jobs && k in own && (state == Created || state == Retry)
    requires s.jobs[k].state == Failed || s.jobs[k].state == Cancelled
    ensures var s' := Moved(s, k, state);
      && Unresolved(s', own) == Unresolved(s, own) && NotCompleted(s', own) == NotCompleted(s, own)
      && Unfetched(s', own) == Unfetched(s, own) + {k} && Stalled(s', own) == Stalled(s, own) - {k}
  {
    assert Moved(s, k, state).jobs[k] == s.jobs[k].(state := state);
  }

  lemma BroughtBack(s: State, own: set<Key>, k: Key, state: JobState)
    requires k in s.jobs && k in own && (state == Created || state == Retry)
    requires s.jobs[k].state == Failed || s.jobs[k].state == Cancelled
    ensures Effort(Moved(s, k, state), own) < Effort(s, own)
  {
    BroughtBackSets(s, own, k, state);
    OneFewerStalled(Unfetched(s, own), Stalled(s, own), k);
  }

  lemma OneFewerStalled(unfetched: set<Key>, stalled: set<Key>, k: Key)
    requires k in stalled
    ensures |unfetched + {k}| + 2 * |stalled - {k}| < |unfetched| + 2 * |stalled|
  {
  }

  lemma StalledRecovers(s: State, own: set<Key>, k: Key) returns (next: State)
    requires Inv(s) && Own(s, own) && k in Stalled(s, own)
    ensures Recovers(s, own, next) && Inv(next) && Own(next, own) && Effort(next, own) < Effort(s, own)
  {
    var step := if s.jobs[k].state == Failed then RetryFailed(k) else Resume(k);
    next := Apply(s, step);
    NextInv(s, step);
    assert Leads(s, step, next);
    BroughtBack(s, own, k, if s.jobs[k].state == Failed then Retry else Created);
  }

  lemma UnfinishedRecovers(s: State, own: set<Key>) returns (next: State)
    requires Inv(s) && Own(s, own) && !AllCompleted(s, own)
    ensures Recovers(s, own, next) && Inv(next) && Own(next, own) && Effort(next, own) < Effort(s, own)
  {
    if k :| k in Stalled(s, own) {
      next := StalledRecovers(s, own, k);
    } else {
      assert forall k | k in own && k in s.jobs :: k !in Stalled(s, own);
      var k :| k in own && s.jobs[k].state != Completed;
      var step := OwnMove(s, own, k);
      next := Apply(s, step);
      WorkDecreases(s, own, step);
      MoveKeepsStalled(s, own, step);
      NextInv(s, step);
      assert Leads(s, step, next);
    }
  }

  lemma RecoveryGoesOn(s: State, own: set<Key>)
    requires Inv(s) && Own(s, own) && !AllCompleted(s, own)
    ensures exists q ::
      RecoversOf(own)(s, q) && Inv(q) && Own(q, own) && Effort(q, own) < Effort(s, own)
  {
    var next := UnfinishedRecovers(s, own);
    assert RecoversOf(own)(s, next);
  }

  /**
   No flow is ever beyond recovery: from every reachable state, moves of its own jobs, with its failed jobs
   retried and its cancelled ones resumed, lead it to the end, every job completed.
   */
  lemma FlowCanRecover(s: State, n: nat, own: set<Key>) returns (s': State, m: nat)
    requires Reachable(s, n) && Own(s, own)
    ensures LeadsTo(s, RecoversOf(own), s', m) && m <= Effort(s, own)
    ensures AllCompleted(s', own)
  {
    ReachableInv(s, n);
    var good, goal := (x: State) => Inv(x) && Own(x, own), (x: State) => AllCompleted(x, own);
    var work: State -> nat := x => Effort(x, own);
    forall p | good(p) && !goal(p) ensures exists q :: RecoversOf(own)(p, q) && good(q) && work(q) < work(p) {
      RecoveryGoesOn(p, own);
      var q :| RecoversOf(own)(p, q) && Inv(q) && Own(q, own) && Effort(q, own) < Effort(p, own);
      assert good(q) && work(q) < work(p);
    }
    s', m := GoalReached(RecoversOf(own), good, goal, work, s);
  }
}
