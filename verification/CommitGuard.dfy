/**
 The commit guard of a transactional batch (`#handlerAttempts`, `#trackHandlerSettle` and
 `#assertClaimHeld` in src/manager.ts, with `attemptFence` in src/plans.ts). The handler settles its
 own jobs through the transaction while other actors expire, cancel, fail, delete and claim jobs, and
 the transaction commits only if every job of the batch is accounted for.
 */
module CommitGuard {
  import opened JobStates
  import opened Options
  import Sets

  /** `claim` is the latest claim of the job. The database does not hold it: only `retryCount` names it there. */
  datatype Row = Row(state: JobState, retryCount: nat, started: bool, claim: nat)

  /** What the worker fetched: the attempt, and the claim it stands for. */
  datatype Held = Held(retryCount: nat, claim: nat)

  datatype Kind = Complete(includeQueued: bool) | Fail(retried: set<nat>) | Cancel | Delete

  /** A call through the handler's transaction, with plain ids or with the attempts the handler names. */
  datatype Settle = Settle(kind: Kind, ids: set<nat>, attempts: Option<map<nat, nat>>)

  datatype Phase = InHandler | Committed | RolledBack

  /**
   `locked` holds the jobs the transaction has written. `landed` holds, for every job a settle touched,
   the row it touched first, and `restored` the jobs somebody restored since the batch was fetched.
   */
  datatype State = State(
    rows: map<nat, Row>, locked: set<nat>, settledByHandler: set<nat>, completed: set<nat>, phase: Phase,
    landed: map<nat, Row>, restored: set<nat>, nextClaim: nat)

  /** Steps of the handler's transaction (`inTx`) see no lock of their own. */
  datatype Step =
    | ClaimJob(id: nat, inTx: bool)
    | Move(id: nat, to: JobState, inTx: bool)
    | Remove(id: nat, inTx: bool)
    | Restore(id: nat, inTx: bool)
    | SettleJobs(settle: Settle)
    | Finish

  // ---- The fence -------------------------------------------------------------------------------

  /** `mapAttemptArg`, and without attempts `#handlerAttempts`: only a settle of the batch's own jobs is fenced. */
  function Fence(batch: map<nat, Held>, settle: Settle): Option<map<nat, nat>>
  {
    if settle.attempts.Some? then settle.attempts
    else if settle.ids <= batch.Keys then Some(map id | id in settle.ids :: batch[id].retryCount)
    else None
  }

  predicate InState(kind: Kind, state: JobState)
  {
    match kind
    case Complete(includeQueued) => if includeQueued then Unfinished(state) else state == Active
    case Fail(_) => Unfinished(state)
    case Cancel => Unfinished(state)
    case Delete => true
  }

  predicate Matches(fence: Option<map<nat, nat>>, id: nat, row: Row)
  {
    fence.Some? ==> row.state == Active && id in fence.value && fence.value[id] == row.retryCount
  }

  /** The jobs a settle touches. */
  function Hits(batch: map<nat, Held>, rows: map<nat, Row>, settle: Settle): set<nat>
  {
    set id | id in settle.ids && id in rows && InState(settle.kind, rows[id].state)
        && Matches(Fence(batch, settle), id, rows[id])
  }

  function Outcome(kind: Kind, id: nat): JobState
  {
    match kind
    case Complete(_) => Completed
    case Fail(retried) => if id in retried then Retry else Failed
    case Cancel => Cancelled
    case Delete => Completed
  }

  function AfterSettle(rows: map<nat, Row>, kind: Kind, hits: set<nat>): map<nat, Row>
  {
    map id | id in rows && !(kind == Delete && id in hits) ::
      if id in hits then rows[id].(state := Outcome(kind, id)) else rows[id]
  }

  function Landing(rows: map<nat, Row>, hits: set<nat>): map<nat, Row>
  {
    map id | id in hits && id in rows :: rows[id]
  }

  /** The completion the worker runs itself carries the jobs it fetched. */
  function Completion(batch: map<nat, Held>): Settle
  {
    Settle(Complete(false), batch.Keys, Some(map id | id in batch :: batch[id].retryCount))
  }

  /** `#assertClaimHeld` */
  predicate ClaimHeld(batch: map<nat, Held>, affected: nat, settledByHandler: set<nat>)
  {
    affected + |batch.Keys * settledByHandler| >= |batch|
  }

  function IdSet(ids: seq<nat>): set<nat>
  {
    set id | id in ids
  }

  method AssertClaimHeld(batch: map<nat, Held>, jobIds: seq<nat>, affected: nat, settledByHandler: set<nat>)
      returns (held: bool)
    requires IdSet(jobIds) == batch.Keys && forall i, j | 0 <= i < j < |jobIds| :: jobIds[i] != jobIds[j]
    ensures held == ClaimHeld(batch, affected, settledByHandler)
  {
    var accounted := affected;
    for i := 0 to |jobIds|
      invariant |IdSet(jobIds[..i])| == i
      invariant accounted == affected + |IdSet(jobIds[..i]) * settledByHandler|
    {
      OneMoreId(jobIds, i, settledByHandler);
      if jobIds[i] in settledByHandler {
        accounted := accounted + 1;
      }
    }
    assert jobIds[..|jobIds|] == jobIds;
    held := accounted >= |jobIds|;
  }

  lemma OneMoreId(ids: seq<nat>, i: nat, settled: set<nat>)
    requires i < |ids| && forall j, k | 0 <= j < k < |ids| :: ids[j] != ids[k]
    ensures |IdSet(ids[..i + 1])| == |IdSet(ids[..i])| + 1
    ensures |IdSet(ids[..i + 1]) * settled| == |IdSet(ids[..i]) * settled| + if ids[i] in settled then 1 else 0
  {
    IdSetNext(ids, i);
    assert ids[i] !in IdSet(ids[..i]);
    OneMore(IdSet(ids[..i]), ids[i], settled);
  }

  lemma IdSetNext(ids: seq<nat>, i: nat)
    requires i < |ids|
    ensures IdSet(ids[..i + 1]) == IdSet(ids[..i]) + {ids[i]}
  {
    assert ids[..i + 1] == ids[..i] + [ids[i]];
  }

  lemma OneMore(before: set<nat>, id: nat, settled: set<nat>)
    requires id !in before
    ensures |before + {id}| == |before| + 1
    ensures |(before + {id}) * settled| == |before * settled| + if id in settled then 1 else 0
  {
    assert (before + {id}) * settled == before * settled + if id in settled then {id} else {};
  }

  // ---- Runs ------------------------------------------------------------------------------------

  function Init(batch: map<nat, Held>, rows: map<nat, Row>, nextClaim: nat): State
  {
    State(rows, {}, {}, {}, InHandler, map[], {}, nextClaim)
  }

  /** The transaction begins once the fetch has claimed every job of the batch. */
  ghost predicate JustFetched(batch: map<nat, Held>, rows: map<nat, Row>)
  {
    forall id | id in batch :: id in rows && rows[id] == Row(Active, batch[id].retryCount, true, batch[id].claim)
  }

  predicate Enabled(s: State, step: Step)
  {
    && s.phase == InHandler
    && match step
       case ClaimJob(id, inTx) => id in s.rows && (s.rows[id].state == Created || s.rows[id].state == Retry)
           && (inTx || id !in s.locked)
       case Move(id, to, inTx) => id in s.rows && to != Active && (inTx || id !in s.locked)
       case Remove(id, inTx) => id in s.rows && (inTx || id !in s.locked)
       case Restore(id, inTx) => id in s.rows && (inTx || id !in s.locked)
       case SettleJobs(_) => true
       case Finish => true
  }

  function Lock(s: State, id: nat, inTx: bool): State
  {
    if inTx then s.(locked := s.locked + {id}) else s
  }

  function Apply(batch: map<nat, Held>, s: State, step: Step): State
    requires Enabled(s, step)
  {
    match step
    case ClaimJob(id, inTx) =>
      var row := s.rows[id];
      var next := Row(Active, if row.started then row.retryCount + 1 else row.retryCount, true, s.nextClaim);
      Lock(s.(rows := s.rows[id := next], nextClaim := s.nextClaim + 1), id, inTx)
    case Move(id, to, inTx) => Lock(s.(rows := s.rows[id := s.rows[id].(state := to)]), id, inTx)
    case Remove(id, inTx) => Lock(s.(rows := s.rows - {id}), id, inTx)
    case Restore(id, inTx) =>
      Lock(s.(rows := s.rows[id := s.rows[id].(state := Created, started := false)], restored := s.restored + {id}),
          id, inTx)
    case SettleJobs(settle) =>
      var hits := Hits(batch, s.rows, settle);
      s.(rows := AfterSettle(s.rows, settle.kind, hits), locked := s.locked + hits,
          settledByHandler := s.settledByHandler + hits,
         landed := Landing(s.rows, hits) + s.landed)
    case Finish =>
      var hits := Hits(batch, s.rows, Completion(batch));
      s.(rows := AfterSettle(s.rows, Complete(false), hits), locked := s.locked + hits, completed := hits,
         phase := if ClaimHeld(batch, |hits|, s.settledByHandler) then Committed else RolledBack,
         landed := Landing(s.rows, hits) + s.landed)
  }

  /** A run: every step of it a step the handler may take, `Within` or not. */
  ghost predicate Run(batch: map<nat, Held>, start: State, steps: seq<Step>, s: State)
    decreases |steps|, 0
  {
    if steps == [] then s == start else RunThen(batch, start, steps[..|steps| - 1], steps[|steps| - 1], s)
  }

  ghost predicate RunThen(batch: map<nat, Held>, start: State, before: seq<Step>, step: Step, s: State)
    decreases |before|, 1
  {
    exists p :: Run(batch, start, before, p) && Leads(batch, p, step, s)
  }

  ghost predicate Leads(batch: map<nat, Held>, p: State, step: Step, s: State)
  {
    Enabled(p, step) && s == Apply(batch, p, step)
  }

  // ---- Which settles are safe ------------------------------------------------------------------

  /** What a caller can check: plain ids are all of the batch or none of it, and no attempt named is a later one. */
  predicate Within(batch: map<nat, Held>, settle: Settle)
  {
    match settle.attempts
    case None => settle.ids <= batch.Keys || settle.ids !! batch.Keys
    case Some(attempts) => forall id | id in settle.ids && id in batch && id in attempts ::
        attempts[id] <= batch[id].retryCount
  }

  /** A job's row names its claim: its `retryCount` is the batch's only while the batch's claim is the latest. */
  predicate Named(held: Held, row: Row)
  {
    row.retryCount > held.retryCount || (row.retryCount == held.retryCount && row.claim == held.claim && row.started)
  }

  /** A settle may meet any rows like these. */
  ghost predicate Possible(batch: map<nat, Held>, rows: map<nat, Row>)
  {
    forall id | id in batch && id in rows :: Named(batch[id], rows[id])
  }

  predicate Own(held: Held, row: Row)
  {
    row.state == Active && row.claim == held.claim && row.retryCount == held.retryCount
  }

  ghost predicate TouchesOnlyOwn(batch: map<nat, Held>, rows: map<nat, Row>, settle: Settle)
  {
    forall id | id in Hits(batch, rows, settle) && id in batch :: Own(batch[id], rows[id])
  }

  lemma WithinIsSafe(batch: map<nat, Held>, rows: map<nat, Row>, settle: Settle)
    requires Within(batch, settle) && Possible(batch, rows)
    ensures TouchesOnlyOwn(batch, rows, settle)
  {
  }

  /**
   A settle touches only the batch's own attempts, whatever has happened to the jobs meanwhile, if and
   only if it is `Within` the batch.
   */
  lemma SafeIffWithin(batch: map<nat, Held>, settle: Settle)
    ensures Within(batch, settle) <==> forall rows | Possible(batch, rows) :: TouchesOnlyOwn(batch, rows, settle)
  {
    if Within(batch, settle) {
      forall rows | Possible(batch, rows) ensures TouchesOnlyOwn(batch, rows, settle) {
        WithinIsSafe(batch, rows, settle);
      }
    } else {
      var id, attempt := Exposed(batch, settle);
      var row := Row(Active, attempt, true, batch[id].claim + 1);
      var rows := map[id := row];
      assert Possible(batch, rows) && id in Hits(batch, rows, settle) && !Own(batch[id], rows[id]);
      assert !TouchesOnlyOwn(batch, rows, settle);
    }
  }

  /** The job, and the newer attempt of it, that a settle beyond the batch can reach. */
  lemma Exposed(batch: map<nat, Held>, settle: Settle) returns (id: nat, attempt: nat)
    requires !Within(batch, settle)
    ensures id in settle.ids && id in batch && attempt > batch[id].retryCount
    ensures match Fence(batch, settle) case None => true case Some(fence) => id in fence && fence[id] == attempt
  {
    match settle.attempts
    case None =>
      id :| id in settle.ids && id in batch;
      attempt := batch[id].retryCount + 1;
    case Some(attempts) =>
      id :| id in settle.ids && id in batch && id in attempts && attempts[id] > batch[id].retryCount;
      attempt := attempts[id];
  }

  // ---- What every run keeps --------------------------------------------------------------------

  /** One job of the batch, as long as nobody has restored it. */
  ghost predicate JobInv(held: Held, s: State, id: nat)
  {
    && (id in s.rows ==> Named(held, s.rows[id]))
    && (s.phase == InHandler ==> (id in s.settledByHandler <==> id in s.landed))
    && (id in s.settledByHandler ==> id in s.landed && id in s.locked)
    && (s.phase == InHandler && id in s.settledByHandler && id in s.rows ==>
        s.rows[id].state != Active
        || s.rows[id].retryCount > held.retryCount)
    && (s.phase == InHandler ==> s.completed == {})
    && (id in s.completed ==> id !in s.settledByHandler && id in s.landed && Own(held, s.landed[id]))
  }

  lemma StepKeepsJob(batch: map<nat, Held>, s: State, step: Step, id: nat)
    requires id in batch && JobInv(batch[id], s, id) && Enabled(s, step) && id !in Apply(batch, s, step).restored
    ensures JobInv(batch[id], Apply(batch, s, step), id)
  {
  }

  /** What a settle within the batch has landed on stays the batch's own attempt. */
  lemma StepKeepsOwn(batch: map<nat, Held>, s: State, step: Step, id: nat)
    requires id in batch && JobInv(batch[id], s, id) && Enabled(s, step)
    requires step.SettleJobs? ==> Within(batch, step.settle)
    requires id in s.landed ==> Own(batch[id], s.landed[id])
    ensures id in Apply(batch, s, step).landed ==> Own(batch[id], Apply(batch, s, step).landed[id])
  {
  }

  ghost predicate AllWithin(batch: map<nat, Held>, steps: seq<Step>)
  {
    forall i | 0 <= i < |steps| && steps[i].SettleJobs? :: Within(batch, steps[i].settle)
  }

  lemma LeadsKeepsJob(batch: map<nat, Held>, p: State, step: Step, s: State, id: nat)
    requires id in batch && JobInv(batch[id], p, id) && Leads(batch, p, step, s) && id !in s.restored
    ensures JobInv(batch[id], s, id) && id !in p.restored
    ensures (step.SettleJobs? ==> Within(batch, step.settle)) && (id in p.landed ==> Own(batch[id], p.landed[id])) ==>
      (id in s.landed ==> Own(batch[id], s.landed[id]))
  {
    StepKeepsJob(batch, p, step, id);
    if (step.SettleJobs? ==> Within(batch, step.settle)) && (id in p.landed ==> Own(batch[id], p.landed[id])) {
      StepKeepsOwn(batch, p, step, id);
    }
  }

  lemma {:induction false} RunKeepsJob(batch: map<nat, Held>, rows: map<nat, Row>, nextClaim: nat, steps: seq<Step>,
      s: State, id: nat)
    requires JustFetched(batch, rows) && Run(batch, Init(batch, rows, nextClaim), steps, s)
    requires id in batch && id !in s.restored
    ensures JobInv(batch[id], s, id)
    ensures AllWithin(batch, steps) && id in s.landed ==> Own(batch[id], s.landed[id])
    decreases |steps|
  {
    if steps != [] {
      var before, step := steps[..|steps| - 1], steps[|steps| - 1];
      var p :| Run(batch, Init(batch, rows, nextClaim), before, p) && Leads(batch, p, step, s);
      RunKeepsJob(batch, rows, nextClaim, before, p, id);
      LeadsKeepsJob(batch, p, step, s, id);
      if AllWithin(batch, steps) {
        assert forall i | 0 <= i < |before| :: before[i] == steps[i];
      }
    }
  }

  /** The job a step of some actor writes, and whether the transaction itself is that actor. */
  predicate Writes(step: Step, id: nat, inTx: bool)
  {
    match step
    case ClaimJob(j, own) => j == id && own == inTx
    case Move(j, _, own) => j == id && own == inTx
    case Remove(j, own) => j == id && own == inTx
    case Restore(j, own) => j == id && own == inTx
    case _ => false
  }

  /** What the transaction has written nobody else writes before it ends: it stays locked until then. */
  lemma WrittenIsLocked(batch: map<nat, Held>, s: State, step: Step, id: nat, other: Step)
    requires Enabled(s, step)
    ensures Writes(step, id, true) ==> id in Apply(batch, s, step).locked
    ensures step.SettleJobs? && id in Hits(batch, s.rows, step.settle) ==> id in Apply(batch, s, step).locked
    ensures s.locked <= Apply(batch, s, step).locked
    ensures id in s.locked && Writes(other, id, false) ==> !Enabled(s, other)
  {
  }

  /** The states a settle of this kind takes a job from. */
  predicate TakenFrom(kind: Kind, state: JobState)
  {
    match kind
    case Complete(includeQueued) => state == Active || (includeQueued && (state == Created || state == Retry))
    case Delete => true
    case _ => state == Active || state == Created || state == Retry
  }

  /**
   What a settle does, job by job. A plain settle of the batch's own jobs, and one that names attempts, reaches a
   job only while it is active under that very `retryCount`; any other reaches whatever the kind of settle takes.
   A job it reaches is deleted, or left completed, cancelled, to be retried or failed, as the call said; one it
   does not reach is left alone.
   */
  lemma SettleExactly(batch: map<nat, Held>, s: State, settle: Settle, id: nat)
    requires Enabled(s, SettleJobs(settle)) && id in s.rows
    ensures var s' := Apply(batch, s, SettleJobs(settle)); var row := s.rows[id];
      var named := settle.attempts.Some? ==> id in settle.attempts.value && row.retryCount == settle.attempts.value[id];
      var held := settle.attempts == None && settle.ids <= batch.Keys && id in batch ==>
        row.retryCount == batch[id].retryCount;
      var fenced := settle.attempts.Some? || settle.ids <= batch.Keys;
      var reached := id in settle.ids && TakenFrom(settle.kind, row.state) && named && held
        && (fenced ==> row.state == Active);
      && (id in s'.settledByHandler <==> reached || id in s.settledByHandler)
      && (!reached ==> id in s'.rows && s'.rows[id] == row)
      && (reached ==>
          match settle.kind
          case Delete => id !in s'.rows
          case Complete(_) => id in s'.rows && s'.rows[id] == row.(state := Completed)
          case Cancel => id in s'.rows && s'.rows[id] == row.(state := Cancelled)
          case Fail(retried) => id in s'.rows && s'.rows[id] == row.(state := if id in retried then Retry else Failed))
  {
  }

  /** And the completion leaves every job it counts completed, under the attempt the worker fetched. */
  lemma CompletedJobs(batch: map<nat, Held>, start: State, steps: seq<Step>, s: State, id: nat)
    requires Run(batch, start, steps, s) && steps != [] && steps[|steps| - 1] == Finish
    requires id in s.completed
    ensures id in batch && id in s.rows && s.rows[id].state == Completed
    ensures s.rows[id].retryCount == batch[id].retryCount
  {
    var p :| Run(batch, start, steps[..|steps| - 1], p) && Leads(batch, p, Finish, s);
  }

  /**
   The check is exact: however the other actors interfere, the transaction commits if and only if every
   job of the batch was settled, by the handler or by the completion, and no job by both.
   */
  lemma {:induction false} CommitIsExact(batch: map<nat, Held>, rows: map<nat, Row>, nextClaim: nat, steps: seq<Step>,
      s: State)
    requires JustFetched(batch, rows) && Run(batch, Init(batch, rows, nextClaim), steps, s)
    requires steps != [] && steps[|steps| - 1] == Finish && batch.Keys !! s.restored
    ensures s.phase == Committed <==> batch.Keys <= s.completed + s.settledByHandler
    ensures batch.Keys * s.completed * s.settledByHandler == {}
  {
    forall id | id in batch ensures JobInv(batch[id], s, id) {
      RunKeepsJob(batch, rows, nextClaim, steps, s, id);
    }
    FinishCounts(batch, Init(batch, rows, nextClaim), steps, s);
    CountDecides(batch.Keys, s.completed, s.settledByHandler);
  }

  lemma FinishCounts(batch: map<nat, Held>, start: State, steps: seq<Step>, s: State)
    requires Run(batch, start, steps, s) && steps != [] && steps[|steps| - 1] == Finish
    ensures s.completed <= batch.Keys
    ensures s.phase == Committed <==> ClaimHeld(batch, |s.completed|, s.settledByHandler)
  {
    var p :| Run(batch, start, steps[..|steps| - 1], p) && Leads(batch, p, Finish, s);
  }

  lemma CountDecides(all: set<nat>, completed: set<nat>, settled: set<nat>)
    requires completed <= all && completed !! settled
    ensures |completed| + |all * settled| >= |all| <==> all <= completed + settled
  {
    var both := completed + all * settled;
    assert |both| == |completed| + |all * settled|;
    if |both| >= |all| {
      Sets.SameSize(both, all);
    }
    if all <= completed + settled {
      assert both == all;
    }
  }

  /**
   A transaction whose settles all stayed within the batch commits only what its own attempts did: every
   job was still active under the claim the worker fetched when its settle landed.
   */
  lemma CommitsOnlyOwnAttempts(batch: map<nat, Held>, rows: map<nat, Row>, nextClaim: nat,
      steps: seq<Step>, s: State, id: nat)
    requires JustFetched(batch, rows) && Run(batch, Init(batch, rows, nextClaim), steps, s) && s.phase == Committed
    requires AllWithin(batch, steps) && batch.Keys !! s.restored && id in batch
    ensures id in s.landed && Own(batch[id], s.landed[id])
    ensures id in s.settledByHandler <==> id !in s.completed
  {
    FinishedLast(batch, Init(batch, rows, nextClaim), steps, s);
    CommitIsExact(batch, rows, nextClaim, steps, s);
    RunKeepsJob(batch, rows, nextClaim, steps, s, id);
    assert id in s.completed + s.settledByHandler;
  }

  lemma FinishedLast(batch: map<nat, Held>, start: State, steps: seq<Step>, s: State)
    requires Run(batch, start, steps, s) && start.phase == InHandler && s.phase != InHandler
    ensures steps != [] && steps[|steps| - 1] == Finish
  {
  }

  // ---- Where the fence does not reach ----------------------------------------------------------

  /** The transaction committed over an attempt of job 0 that is not the batch's. */
  ghost predicate CommitsOver(batch: map<nat, Held>, s: State)
  {
    s.phase == Committed && 0 in batch && 0 in s.landed && s.landed[0].state == Active
        && s.landed[0].claim > batch[0].claim
  }

  /**
   A handler that settles its own job together with a job of another batch is not fenced: the job had
   expired and was running again under a newer claim, and the transaction still commits over it.
   */
  lemma BeyondTheBatchIsUnfenced(batch: map<nat, Held>, rows: map<nat, Row>)
      returns (steps: seq<Step>, s: State)
    requires batch == map[0 := Held(0, 0)] && rows == map[0 := Row(Active, 0, true, 0), 1 := Row(Active, 0, true, 1)]
    ensures JustFetched(batch, rows) && Run(batch, Init(batch, rows, 2), steps, s) && CommitsOver(batch, s)
        && s.restored == {}
  {
    var settle := Settle(Complete(false), {0, 1}, None);
    var s0 := Init(batch, rows, 2);
    var s1 := s0.(rows := rows[0 := Row(Retry, 0, true, 0)]);
    var s2 := s1.(rows := rows[0 := Row(Active, 1, true, 2)], nextClaim := 3);
    var s3 := s2.(rows := map[0 := s2.rows[0].(state := Completed), 1 := s2.rows[1].(state := Completed)],
                  locked := {0, 1}, settledByHandler := {0, 1}, landed := s2.rows);
    s := s3.(phase := Committed);
    Moves(batch, s0, 0, Retry, s1);
    Claims(batch, s1, 0, s2);
    SettlesBoth(batch, s2, settle, s3);
    FinishesShort(batch, s3, s);
    steps := [];
    steps := RunOne(batch, s0, steps, s0, Move(0, Retry, false), s1);
    steps := RunOne(batch, s0, steps, s1, ClaimJob(0, false), s2);
    steps := RunOne(batch, s0, steps, s2, SettleJobs(settle), s3);
    steps := RunOne(batch, s0, steps, s3, Finish, s);
  }

  lemma Moves(batch: map<nat, Held>, s: State, id: nat, to: JobState, t: State)
    requires s.phase == InHandler && id in s.rows && id !in s.locked && to != Active
    requires t == s.(rows := s.rows[id := s.rows[id].(state := to)])
    ensures Leads(batch, s, Move(id, to, false), t)
  {
  }

  lemma Claims(batch: map<nat, Held>, s: State, id: nat, t: State)
    requires s.phase == InHandler && id in s.rows && id !in s.locked && s.rows[id].state in {Created, Retry}
    requires t.rows == s.rows[id := Row(Active, s.rows[id].retryCount + (if s.rows[id].started then 1 else 0), true,
        s.nextClaim)]
    requires t == s.(rows := t.rows, nextClaim := s.nextClaim + 1)
    ensures Leads(batch, s, ClaimJob(id, false), t)
  {
  }

  lemma SettlesBoth(batch: map<nat, Held>, s: State, settle: Settle, t: State)
    requires batch.Keys == {0} && s.rows.Keys == {0, 1} && s.rows[0].state == Active && s.rows[1].state == Active
        && s.phase == InHandler
    requires settle == Settle(Complete(false), {0, 1}, None) && s.landed == map[] && s.locked == {}
        && s.settledByHandler == {}
    requires t == s.(rows := map[0 := s.rows[0].(state := Completed), 1 := s.rows[1].(state := Completed)],
                     locked := {0, 1}, settledByHandler := {0, 1}, landed := s.rows)
    ensures Leads(batch, s, SettleJobs(settle), t)
  {
    assert 1 in settle.ids && 1 !in batch;
    var hits := Hits(batch, s.rows, settle);
    assert hits == {0, 1};
    assert AfterSettle(s.rows, settle.kind, hits) == t.rows;
    assert Landing(s.rows, hits) + s.landed == t.landed;
  }

  lemma FinishesShort(batch: map<nat, Held>, s: State, t: State)
    requires batch.Keys == {0} && s.phase == InHandler && s.completed == {} && 0 in s.settledByHandler
    requires 0 in s.rows && s.rows[0].state == Completed && t == s.(phase := Committed)
    ensures Leads(batch, s, Finish, t)
  {
    var hits := Hits(batch, s.rows, Completion(batch));
    assert hits == {};
    assert batch.Keys * s.settledByHandler == {0};
    assert |batch| == |batch.Keys|;
    assert AfterSettle(s.rows, Complete(false), hits) == s.rows;
    assert Landing(s.rows, hits) + s.landed == s.landed;
  }

  lemma RunOne(batch: map<nat, Held>, start: State, before: seq<Step>, p: State, step: Step,
      s: State) returns (steps: seq<Step>)
    requires Run(batch, start, before, p) && Leads(batch, p, step, s)
    ensures steps == before + [step] && Run(batch, start, steps, s)
  {
    steps := before + [step];
    assert steps[..|before|] == before;
  }

  lemma RestoredAndClaimed(batch: map<nat, Held>, rows: map<nat, Row>)
      returns (steps: seq<Step>, s: State)
    requires batch == map[0 := Held(0, 0)] && rows == map[0 := Row(Active, 0, true, 0)]
    ensures Run(batch, Init(batch, rows, 2), steps, s) && steps == [Restore(0, false), ClaimJob(0, false)]
    ensures s == State(map[0 := Row(Active, 0, true, 2)], {}, {}, {}, InHandler, map[], {0}, 3)
  {
    var s0 := Init(batch, rows, 2);
    var s1 := s0.(rows := rows[0 := Row(Created, 0, false, 0)], restored := {0});
    s := s1.(rows := rows[0 := Row(Active, 0, true, 2)], nextClaim := 3);
    Restores(batch, s0, 0, s1);
    Claims(batch, s1, 0, s);
    steps := RunOne(batch, s0, [], s0, Restore(0, false), s1);
    steps := RunOne(batch, s0, steps, s1, ClaimJob(0, false), s);
  }

  /** And a job that was restored while its handler ran is claimed again under the same `retryCount`. */
  lemma RestoreDefeatsTheFence(batch: map<nat, Held>, rows: map<nat, Row>)
      returns (steps: seq<Step>, s: State)
    requires batch == map[0 := Held(0, 0)] && rows == map[0 := Row(Active, 0, true, 0)]
    ensures JustFetched(batch, rows) && Run(batch, Init(batch, rows, 2), steps, s) && CommitsOver(batch, s)
        && AllWithin(batch, steps)
  {
    var before, p := RestoredAndClaimed(batch, rows);
    s := p.(rows := map[0 := p.rows[0].(state := Completed)], locked := {0}, completed := {0}, landed := p.rows,
        phase := Committed);
    FinishesAlone(batch, p, s);
    steps := RunOne(batch, Init(batch, rows, 2), before, p, Finish, s);
  }

  lemma Restores(batch: map<nat, Held>, s: State, id: nat, t: State)
    requires s.phase == InHandler && id in s.rows && id !in s.locked
    requires t == s.(rows := s.rows[id := s.rows[id].(state := Created, started := false)],
        restored := s.restored + {id})
    ensures Leads(batch, s, Restore(id, false), t)
  {
  }

  lemma FinishesAlone(batch: map<nat, Held>, s: State, t: State)
    requires batch.Keys == {0} && s.phase == InHandler && s.landed == map[] && s.locked == {}
        && s.settledByHandler == {}
    requires s.rows.Keys == {0} && s.rows[0].state == Active && s.rows[0].retryCount == batch[0].retryCount
    requires t == s.(rows := map[0 := s.rows[0].(state := Completed)], locked := {0}, completed := {0},
        landed := s.rows, phase := Committed)
    ensures Leads(batch, s, Finish, t)
  {
    var hits := Hits(batch, s.rows, Completion(batch));
    assert hits == {0};
    assert |batch| == |batch.Keys|;
    assert AfterSettle(s.rows, Complete(false), hits) == t.rows;
    assert Landing(s.rows, hits) + s.landed == t.landed;
  }
}
