/**
 Failing jobs on a database that allows one mutation a statement (`failDistributed`,
 `expireJobsDistributed` and `reinsertFailedJobs` in src/manager.ts): the selected rows are deleted and
 inserted again as `retry` or `failed`, under the partial unique indexes of src/migrationStore.ts.
 */
module JobTable {
  import opened JobStates
  import opened Options

  datatype Policy = NoPolicy | Standard | Short | Singleton | Stately | Exclusive | KeyStrictFifo

  datatype Key = Key(queue: string, id: nat)

  /** `content` stands for the columns a failure carries over unread; `source` is dead-letter provenance. */
  datatype Row = Row(
    state: JobState, policy: Policy, singletonKey: Option<string>, singletonOn: Option<int>, upsertByKey: bool,
    retryCount: nat, retryLimit: nat, deadLetter: Option<string>, content: int, output: int, source: Option<Key>)

  // ---- The unique indexes ----------------------------------------------------------------------

  /** The order of the job_state enum. */
  function Rank(s: JobState): nat
  {
    match s
    case Created => 0
    case Retry => 1
    case Active => 2
    case Completed => 3
    case Cancelled => 4
    case Failed => 5
  }

  function Coalesced(key: Option<string>): string
  {
    if key.Some? then key.value else ""
  }

  /** The states job_i8 covers: a key_strict_fifo key that one job holds. */
  predicate HoldsKey(s: JobState)
  {
    s == Active || s == Retry || s == Failed
  }

  /** Two rows of one queue that some unique index does not allow together. */
  predicate Clash(a: Row, b: Row)
  {
    var sameKey := Coalesced(a.singletonKey) == Coalesced(b.singletonKey);
    // job_i1
    || (a.state == b.state == Created && a.policy == b.policy == Short && sameKey)
    // job_i2
    || (a.state == b.state == Active && a.policy == b.policy == Singleton && sameKey)
    // job_i3
    || (a.state == b.state && Rank(a.state) <= Rank(Active) && a.policy == b.policy == Stately && sameKey)
    // job_i4
    || (a.state != Cancelled && b.state != Cancelled && a.singletonOn.Some? && a.singletonOn == b.singletonOn
        && sameKey)
    // job_i6
    || (Rank(a.state) <= Rank(Active) && Rank(b.state) <= Rank(Active) && a.policy == b.policy == Exclusive && sameKey)
    // job_i8
    || (HoldsKey(a.state) && HoldsKey(b.state) && a.policy == b.policy == KeyStrictFifo
        && a.singletonKey.Some? && a.singletonKey == b.singletonKey)
    // job_i13
    || (a.state == b.state == Created && a.upsertByKey && b.upsertByKey && a.singletonKey.Some?
        && a.singletonKey == b.singletonKey)
  }

  predicate Refused(t: map<Key, Row>, k: Key, row: Row)
  {
    exists other | other in t :: other != k && other.queue == k.queue && Clash(row, t[other])
  }

  ghost predicate Together(t: map<Key, Row>, a: Key, b: Key)
    requires a in t && b in t
  {
    a != b && a.queue == b.queue ==> !Clash(t[a], t[b])
  }

  ghost predicate IndexesHold(t: map<Key, Row>)
  {
    forall a, b {:trigger Together(t, a, b)} | a in t && b in t :: Together(t, a, b)
  }

  /** What the indexes promise of two jobs of one queue with the same key, policy by policy. */
  lemma PoliciesHold(t: map<Key, Row>, a: Key, b: Key)
    requires IndexesHold(t) && a in t && b in t && a != b && a.queue == b.queue
    requires Coalesced(t[a].singletonKey) == Coalesced(t[b].singletonKey)
    ensures t[a].policy == t[b].policy == Short ==> !(t[a].state == Created && t[b].state == Created)
    ensures t[a].policy == t[b].policy == Singleton ==> !(t[a].state == Active && t[b].state == Active)
    ensures t[a].policy == t[b].policy == Stately && Unfinished(t[a].state) ==> t[a].state != t[b].state
    ensures t[a].policy == t[b].policy == Exclusive ==> !(Unfinished(t[a].state) && Unfinished(t[b].state))
    ensures t[a].policy == t[b].policy == KeyStrictFifo && t[a].singletonKey.Some? && t[b].singletonKey.Some? ==>
        !(t[a].state in {Active, Retry, Failed} && t[b].state in {Active, Retry, Failed})
    ensures t[a].singletonOn.Some? && t[a].singletonOn == t[b].singletonOn ==>
        t[a].state == Cancelled || t[b].state == Cancelled
    ensures t[a].upsertByKey && t[b].upsertByKey && t[a].singletonKey.Some? && t[b].singletonKey.Some? ==>
        !(t[a].state == Created && t[b].state == Created)
  {
    assert Together(t, a, b);
  }

  /** And they ask no more: jobs of no such policy, place or key never refuse one another. */
  lemma NothingElseRefused(a: Row, b: Row)
    requires Clash(a, b)
    ensures Coalesced(a.singletonKey) == Coalesced(b.singletonKey)
    ensures (a.policy == b.policy && a.policy in {Short, Singleton, Stately, Exclusive, KeyStrictFifo})
      || (a.singletonOn.Some? && a.singletonOn == b.singletonOn && a.state != Cancelled && b.state != Cancelled)
      || (a.upsertByKey && b.upsertByKey && a.state == b.state == Created)
    ensures (a.state != Completed && b.state != Completed) || a.singletonOn == b.singletonOn != None
  {
  }

  // ---- What failing a job makes of it ----------------------------------------------------------

  predicate Failable(row: Row)
  {
    Rank(row.state) < Rank(Completed)
  }

  /** The row put back, in the state given: `insertRetryJob` names no upsert_by_key column, so it is dropped. */
  function Reinserted(row: Row, state: JobState, output: int): Row
  {
    row.(state := state, upsertByKey := false, output := output)
  }

  predicate CanRetry(row: Row, forceTerminal: bool)
  {
    !forceTerminal && row.retryCount < row.retryLimit
  }

  /** The dead letter copy: a new job, of no policy, that has not run. */
  function Copy(source: Key, row: Row, output: int): Row
  {
    Row(Created, NoPolicy, row.singletonKey, None, false, 0, 0, None, row.content, output, Some(source))
  }

  /** The rows: those not selected are untouched, and the first `n` selected jobs are back or refused. */
  ghost predicate RowsOutcome(t0: map<Key, Row>, jobs: seq<Key>, n: nat, forceTerminal: bool, output: int, t: map<Key,
      Row>)
    requires n <= |jobs| && forall k | k in jobs :: k in t0
  {
    && IndexesHold(t)
    && (forall k | k in t0 && k !in jobs :: k in t && t[k] == t0[k])
    && (forall m | n <= m < |jobs| :: jobs[m] !in t)
    && (forall m {:trigger Became(t0, jobs[m], forceTerminal, output, t)} | 0 <= m < n ::
        Became(t0, jobs[m], forceTerminal, output, t))
  }

  /**
   The dead letter copies: `copies` gives each job that was not retried, and has a dead letter queue,
   a copy of its own there, and there is nothing else new in the table.
   */
  ghost predicate CopiesOutcome(t0: map<Key, Row>, jobs: seq<Key>, n: nat, output: int, t: map<Key, Row>,
      copies: map<Key, Key>)
    requires n <= |jobs| && forall k | k in jobs :: k in t0
  {
    && (forall k {:trigger Copied(t0, k, output, t, copies[k])} | k in copies ::
        k in jobs
        && Copied(t0, k, output, t, copies[k]))
    && (forall m {:trigger jobs[m] in copies} | 0 <= m < n :: jobs[m] in copies <==>
        !Retried(t, jobs[m])
        && t0[jobs[m]].deadLetter.Some?)
    && (forall m {:trigger jobs[m] in copies} | n <= m < |jobs| :: jobs[m] !in copies)
    && (forall a, b | a in copies && b in copies && copies[a] == copies[b] :: a == b)
    && (forall k {:trigger k in copies.Values} | k in t :: k in t0 || k in copies.Values)
  }

  /** What failing the selected jobs has made of the table once the first `n` are done. */
  ghost predicate Outcome(t0: map<Key, Row>, jobs: seq<Key>, n: nat, forceTerminal: bool, output: int, t: map<Key,
      Row>, copies: map<Key, Key>)
    requires n <= |jobs| && forall k | k in jobs :: k in t0
  {
    RowsOutcome(t0, jobs, n, forceTerminal, output, t) && CopiesOutcome(t0, jobs, n, output, t, copies)
  }

  predicate Retried(t: map<Key, Row>, k: Key)
  {
    k in t && t[k].state == Retry
  }

  /**
   A job is back as one row: `retry` if it could be retried and the indexes allowed it, and `failed`
   otherwise; unless they refused it even as `failed`.
   */
  ghost predicate Became(t0: map<Key, Row>, k: Key, forceTerminal: bool, output: int, t: map<Key, Row>)
    requires k in t0
  {
    if k in t then
      || (CanRetry(t0[k], forceTerminal) && t[k] == Reinserted(t0[k], Retry, output))
      || (t[k] == Reinserted(t0[k], Failed, output)
          && (!CanRetry(t0[k], forceTerminal) || Refused(t, k, Reinserted(t0[k], Retry, output))))
    else Refused(t, k, Reinserted(t0[k], Failed, output))
  }

  ghost predicate Copied(t0: map<Key, Row>, k: Key, output: int, t: map<Key, Row>, copy: Key)
  {
    && k in t0 && copy !in t0 && copy in t
    && t0[k].deadLetter == Some(copy.queue)
    && t[copy] == Copy(k, t0[k], output)
  }

  /** A dead letter copy in its own fields: it holds what the failed job held, and nothing has run it. */
  ghost predicate IsCopyOf(copy: Row, k: Key, row: Row, output: int)
  {
    && copy.state == Created && copy.content == row.content && copy.singletonKey == row.singletonKey
    && copy.output == output && copy.source == Some(k) && copy.retryCount == 0
    && copy.policy == NoPolicy && copy.singletonOn == None && !copy.upsertByKey && copy.deadLetter == None
  }

  /**
   What failing one job comes to, in the row's own fields. It is retried exactly when it has a retry left, the
   call did not rule it out and no index refuses it; otherwise it is `failed`, unless an index refuses that as
   well. Nothing but the state, the output and `upsertByKey` changes. A job that is not retried has one copy in
   its dead letter queue, if it has such a queue.
   */
  ghost predicate Settled(row: Row, k: Key, forceTerminal: bool, output: int, t: map<Key, Row>,
      copies: map<Key, Key>)
  {
    var retry := row.(state := Retry, upsertByKey := false, output := output);
    var failed := row.(state := Failed, upsertByKey := false, output := output);
    var retried := k in t && t[k].state == Retry;
    && (retried <==> !forceTerminal && row.retryCount < row.retryLimit && !Refused(t, k, retry))
    && (retried ==> t[k] == retry)
    && (!retried ==> if k in t then t[k] == failed else Refused(t, k, failed))
    && (k in copies <==> !retried && row.deadLetter.Some?)
    && (k in copies ==>
        copies[k] in t && copies[k].queue == row.deadLetter.value && IsCopyOf(t[copies[k]], k, row, output))
  }

  ghost predicate DistinctKeys(jobs: seq<Key>)
  {
    forall i, j | 0 <= i < j < |jobs| :: jobs[i] != jobs[j]
  }

  class Jobs {
    var rows: map<Key, Row>
    /** Above every id in the table, so the next one drawn is new. */
    var nextId: nat

    ghost predicate Valid()
      reads this
    {
      IndexesHold(rows) && forall k | k in rows :: k.id < nextId
    }

    constructor (rows: map<Key, Row>, nextId: nat)
      requires IndexesHold(rows) && forall k | k in rows :: k.id < nextId
      ensures Valid() && this.rows == rows && this.nextId == nextId
    {
      this.rows, this.nextId := rows, nextId;
    }

    /** INSERT ... ON CONFLICT DO NOTHING. */
    method TryInsert(k: Key, row: Row) returns (inserted: bool)
      requires Valid() && k.id < nextId
      modifies this`rows
      ensures Valid()
      ensures inserted <==> k !in old(rows) && !Refused(old(rows), k, row)
      ensures rows == if inserted then old(rows)[k := row] else old(rows)
    {
      inserted := k !in rows && !Refused(rows, k, row);
      if inserted {
        InsertKeepsIndexes(rows, k, row);
        rows := rows[k := row];
      }
    }

    /** `selectJobsToFailById`: the rows asked about that have not finished. */
    method SelectJobsToFail(keys: seq<Key>) returns (jobs: seq<(Key, Row)>)
      ensures forall i, j | 0 <= i < j < |jobs| :: jobs[i].0 != jobs[j].0
      ensures forall i | 0 <= i < |jobs| ::
          jobs[i].0 in keys && jobs[i].0 in rows && rows[jobs[i].0] == jobs[i].1
          && Failable(jobs[i].1)
      ensures forall k | k in keys && k in rows && Failable(rows[k]) :: exists i :: 0 <= i < |jobs| && jobs[i].0 == k
    {
      jobs := [];
      for n := 0 to |keys|
        invariant forall i, j | 0 <= i < j < |jobs| :: jobs[i].0 != jobs[j].0
        invariant forall i | 0 <= i < |jobs| ::
            jobs[i].0 in keys && jobs[i].0 in rows && rows[jobs[i].0] == jobs[i].1
            && Failable(jobs[i].1)
        invariant forall m | 0 <= m < n && keys[m] in rows && Failable(rows[keys[m]]) :: exists i ::
            0 <= i < |jobs|
            && jobs[i].0 == keys[m]
      {
        var k := keys[n];
        if k in rows && Failable(rows[k]) && !(exists i | 0 <= i < |jobs| :: jobs[i].0 == k) {
          ghost var before := jobs;
          jobs := jobs + [(k, rows[k])];
          assert jobs[|jobs| - 1].0 == k;
          assert forall i | 0 <= i < |before| :: jobs[i] == before[i];
        }
      }
    }

    /** One deleted job put back: as `retry` if it can be and the indexes allow it, or else as `failed`. */
    method ReinsertFailedJob(k: Key, row: Row, forceTerminal: bool, output: int) returns (retried: bool)
      requires Valid() && k.id < nextId && k !in rows
      modifies this`rows
      ensures Valid()
      ensures rows.Keys <= old(rows).Keys + {k} && forall other | other in old(rows) ::
          other in rows
          && rows[other] == old(rows)[other]
      ensures retried == (!forceTerminal && row.retryCount < row.retryLimit
          && !Refused(old(rows), k, row.(state := Retry, upsertByKey := false, output := output)))
      ensures k in rows <==>
          retried || !Refused(old(rows), k, row.(state := Failed, upsertByKey := false, output := output))
      ensures k in rows ==>
          rows[k] == row.(state := if retried then Retry else Failed, upsertByKey := false, output := output)
      ensures Became(map[k := row], k, forceTerminal, output, rows) && (retried <==> Retried(rows, k))
    {
      retried := false;
      if CanRetry(row, forceTerminal) {
        retried := TryInsert(k, Reinserted(row, Retry, output));
      }
      if !retried {
        ghost var before := rows;
        var _ := TryInsert(k, Reinserted(row, Failed, output));
        if CanRetry(row, forceTerminal) {
          RefusedStays(before, rows, k, Reinserted(row, Retry, output));
        }
      }
    }

    /** A dead letter copy in its queue, under an id drawn for it. */
    method InsertCopy(k: Key, row: Row, output: int) returns (copy: Key)
      requires Valid() && row.deadLetter.Some?
      modifies this
      ensures Valid() && nextId == old(nextId) + 1
      ensures copy == Key(row.deadLetter.value, old(nextId)) && copy !in old(rows)
          && rows == old(rows)[copy := Copy(k, row, output)]
      ensures IsCopyOf(rows[copy], k, row, output)
    {
      copy := Key(row.deadLetter.value, nextId);
      CopyFits(rows, copy, k, row, output);
      nextId := nextId + 1;
      rows := rows[copy := Copy(k, row, output)];
    }

    /** `reinsertFailedJobs`: each deleted job as `retry`, or else as `failed` with its dead letter copy. */
    method ReinsertFailedJobs(jobs: seq<(Key, Row)>, forceTerminal: bool, output: int, ghost t0: map<Key, Row>,
        keys: seq<Key>)
      returns (ghost copies: map<Key, Key>)
      requires Valid() && (forall k | k in t0 :: k.id < nextId)
      requires |keys| == |jobs| && DistinctKeys(keys)
      requires forall i | 0 <= i < |jobs| :: jobs[i].0 == keys[i] && keys[i] in t0 && jobs[i].1 == t0[keys[i]]
      requires Outcome(t0, keys, 0, forceTerminal, output, rows, map[])
      modifies this
      ensures Valid()
      ensures Outcome(t0, keys, |keys|, forceTerminal, output, rows, copies)
    {
      copies := map[];
      for i := 0 to |jobs|
        invariant Valid() && (forall k | k in t0 :: k.id < nextId)
        invariant Outcome(t0, keys, i, forceTerminal, output, rows, copies)
      {
        copies := PutBack(jobs[i].1, forceTerminal, output, t0, keys, i, copies);
      }
    }

    /** One turn of that loop: the job, and its copy if it was not retried and has somewhere to go. */
    method PutBack(row: Row, forceTerminal: bool, output: int, ghost t0: map<Key, Row>, keys: seq<Key>, i: nat,
        ghost copies: map<Key, Key>)
      returns (ghost copies': map<Key, Key>)
      requires Valid() && forall k | k in t0 :: k.id < nextId
      requires i < |keys| && DistinctKeys(keys) && (forall k | k in keys :: k in t0) && row == t0[keys[i]]
      requires Outcome(t0, keys, i, forceTerminal, output, rows, copies)
      modifies this
      ensures Valid() && old(nextId) <= nextId
      ensures Outcome(t0, keys, i + 1, forceTerminal, output, rows, copies')
    {
      ghost var before := rows;
      var retried := ReinsertFailedJob(keys[i], row, forceTerminal, output);
      assert Became(t0, keys[i], forceTerminal, output, rows);
      copies' := copies;
      if retried || row.deadLetter == None {
        OutcomeNext(t0, keys, i, forceTerminal, output, before, copies, rows);
      } else {
        ghost var middle := rows;
        var copy := InsertCopy(keys[i], row, output);
        OutcomeWithCopy(t0, keys, i, forceTerminal, output, before, copies, middle, copy);
        copies' := copies[keys[i] := copy];
      }
    }

    /** Select and delete. */
    method TakeOut(ids: seq<Key>) returns (jobs: seq<(Key, Row)>, keys: seq<Key>)
      requires Valid()
      modifies this`rows
      ensures Valid() && DistinctKeys(keys) && |keys| == |jobs|
      ensures forall k :: k in keys <==> k in ids && k in old(rows) && Unfinished(old(rows)[k].state)
      ensures forall i | 0 <= i < |jobs| ::
        jobs[i].0 == keys[i] && keys[i] in old(rows) && jobs[i].1 == old(rows)[keys[i]]
      ensures rows == map k | k in old(rows) && k !in keys :: old(rows)[k]
    {
      jobs := SelectJobsToFail(ids);
      keys := seq(|jobs|, i requires 0 <= i < |jobs| => jobs[i].0);
      SelectedKeys(rows, ids, jobs, keys);
      ghost var t0 := rows;
      rows := map k | k in rows && k !in keys :: rows[k];
      DeleteKeepsIndexes(t0, rows);
    }

    /** Select, delete, insert again. */
    method FailDistributed(ids: seq<Key>, forceTerminal: bool, output: int)
        returns (count: nat, keys: seq<Key>, ghost copies: map<Key, Key>)
      requires Valid()
      modifies this
      ensures Valid()
      ensures DistinctKeys(keys) && count == |keys|
      ensures forall k :: k in keys <==> k in ids && k in old(rows) && Unfinished(old(rows)[k].state)
      ensures Outcome(old(rows), keys, |keys|, forceTerminal, output, rows, copies)
      ensures forall k | k in keys :: Settled(old(rows)[k], k, forceTerminal, output, rows, copies)
    {
      ghost var t0 := rows;
      var jobs;
      jobs, keys := TakeOut(ids);
      count := |jobs|;
      copies := ReinsertFailedJobs(jobs, forceTerminal, output, t0, keys);
      AllSettled(t0, keys, forceTerminal, output, rows, copies);
    }
  }

  lemma SelectedKeys(t: map<Key, Row>, ids: seq<Key>, jobs: seq<(Key, Row)>, keys: seq<Key>)
    requires |keys| == |jobs| && forall i | 0 <= i < |jobs| :: keys[i] == jobs[i].0
    requires forall i, j | 0 <= i < j < |jobs| :: jobs[i].0 != jobs[j].0
    requires forall i | 0 <= i < |jobs| :: jobs[i].0 in ids && jobs[i].0 in t && Failable(t[jobs[i].0])
    requires forall k | k in ids && k in t && Failable(t[k]) :: exists i :: 0 <= i < |jobs| && jobs[i].0 == k
    ensures DistinctKeys(keys)
    ensures forall k :: k in keys <==> k in ids && k in t && Unfinished(t[k].state)
  {
    forall k ensures k in keys <==> k in ids && k in t && Unfinished(t[k].state) {
      if k in ids && k in t && Unfinished(t[k].state) {
        var i :| 0 <= i < |jobs| && jobs[i].0 == k;
        assert keys[i] == k;
      }
    }
  }

  lemma AllSettled(t0: map<Key, Row>, keys: seq<Key>, forceTerminal: bool, output: int, t: map<Key, Row>,
      copies: map<Key, Key>)
    requires forall j | j in keys :: j in t0
    requires Outcome(t0, keys, |keys|, forceTerminal, output, t, copies)
    ensures forall k | k in keys :: Settled(t0[k], k, forceTerminal, output, t, copies)
  {
    forall k | k in keys ensures Settled(t0[k], k, forceTerminal, output, t, copies) {
      OutcomeSettles(t0, keys, forceTerminal, output, t, copies, k);
    }
  }

  lemma OutcomeSettles(t0: map<Key, Row>, keys: seq<Key>, forceTerminal: bool, output: int, t: map<Key, Row>,
      copies: map<Key, Key>, k: Key)
    requires (forall j | j in keys :: j in t0) && k in keys
    requires Outcome(t0, keys, |keys|, forceTerminal, output, t, copies)
    ensures Settled(t0[k], k, forceTerminal, output, t, copies)
  {
    var m :| 0 <= m < |keys| && keys[m] == k;
    assert Became(t0, keys[m], forceTerminal, output, t);
    if k in t {
      forall other | other in t && other != k && other.queue == k.queue ensures !Clash(t[k], t[other]) {
        assert Together(t, k, other);
      }
    }
    assert keys[m] in copies <==> !Retried(t, keys[m]) && t0[keys[m]].deadLetter.Some?;
    if k in copies {
      assert Copied(t0, k, output, t, copies[k]);
    }
  }

  lemma ClashSymmetric(a: Row, b: Row)
    ensures Clash(a, b) <==> Clash(b, a)
  {
  }

  lemma InsertKeepsIndexes(t: map<Key, Row>, k: Key, row: Row)
    requires IndexesHold(t) && k !in t && !Refused(t, k, row)
    ensures IndexesHold(t[k := row])
  {
    var t' := t[k := row];
    forall a, b | a in t' && b in t' ensures Together(t', a, b) {
      if a in t && b in t {
        assert Together(t, a, b);
      } else {
        ClashSymmetric(t'[a], t'[b]);
      }
    }
  }

  lemma DeleteKeepsIndexes(t: map<Key, Row>, t': map<Key, Row>)
    requires IndexesHold(t) && forall k | k in t' :: k in t && t'[k] == t[k]
    ensures IndexesHold(t')
  {
    forall a, b | a in t' && b in t' ensures Together(t', a, b) {
      assert Together(t, a, b);
    }
  }

  /** A dead letter copy is in no unique index, so it fits any table. */
  lemma CopyFits(t: map<Key, Row>, copy: Key, k: Key, row: Row, output: int)
    requires IndexesHold(t) && copy !in t
    ensures IndexesHold(t[copy := Copy(k, row, output)])
  {
    InsertKeepsIndexes(t, copy, Copy(k, row, output));
  }

  /** What a job became stays so while rows are only added. */
  lemma BecameStays(t0: map<Key, Row>, k: Key, forceTerminal: bool, output: int, t: map<Key, Row>, t': map<Key, Row>)
    requires k in t0 && Became(t0, k, forceTerminal, output, t)
    requires Grown(t, t') && (k in t' ==> k in t)
    ensures Became(t0, k, forceTerminal, output, t')
  {
    if k !in t {
      RefusedStays(t, t', k, Reinserted(t0[k], Failed, output));
    } else if t[k].state == Failed && CanRetry(t0[k], forceTerminal) {
      RefusedStays(t, t', k, Reinserted(t0[k], Retry, output));
    }
  }

  lemma RefusedStays(t: map<Key, Row>, t': map<Key, Row>, k: Key, row: Row)
    requires Grown(t, t') && Refused(t, k, row)
    ensures Refused(t', k, row)
  {
    var other :| other in t && other != k && other.queue == k.queue && Clash(row, t[other]);
    assert t'[other] == t[other];
  }

  ghost predicate Grown(t: map<Key, Row>, t': map<Key, Row>)
  {
    forall k | k in t :: k in t' && t'[k] == t[k]
  }

  lemma RowsNext(t0: map<Key, Row>, keys: seq<Key>, i: nat, forceTerminal: bool, output: int, t: map<Key, Row>,
      t': map<Key, Row>)
    requires i < |keys| && DistinctKeys(keys) && forall k | k in keys :: k in t0
    requires RowsOutcome(t0, keys, i, forceTerminal, output, t)
    requires IndexesHold(t') && Grown(t, t') && forall k | k in t' && k !in t :: k == keys[i] || k !in t0
    requires Became(t0, keys[i], forceTerminal, output, t')
    ensures RowsOutcome(t0, keys, i + 1, forceTerminal, output, t')
  {
    forall m | 0 <= m < i + 1 ensures Became(t0, keys[m], forceTerminal, output, t') {
      if m < i {
        assert Became(t0, keys[m], forceTerminal, output, t);
        BecameStays(t0, keys[m], forceTerminal, output, t, t');
      }
    }
  }

  /** The copies made so far are still what they were, and so is which jobs were retried. */
  lemma CopiesStay(t0: map<Key, Row>, keys: seq<Key>, i: nat, output: int, t: map<Key, Row>, copies: map<Key, Key>,
      t': map<Key, Row>)
    requires i < |keys| && DistinctKeys(keys) && (forall k | k in keys :: k in t0)
    requires CopiesOutcome(t0, keys, i, output, t, copies)
    requires Grown(t, t') && forall k | k in t' && k !in t :: k == keys[i] || k !in t0
    ensures forall k | k in copies :: k in keys && Copied(t0, k, output, t', copies[k])
    ensures forall m | 0 <= m < i :: keys[m] in copies <==> !Retried(t', keys[m]) && t0[keys[m]].deadLetter.Some?
  {
    forall k | k in copies ensures k in keys && Copied(t0, k, output, t', copies[k]) {
      assert Copied(t0, k, output, t, copies[k]);
    }
    forall m | 0 <= m < i ensures Retried(t', keys[m]) == Retried(t, keys[m]) {
      assert keys[m] in t' ==> keys[m] in t;
    }
  }

  lemma OutcomeNext(t0: map<Key, Row>, keys: seq<Key>, i: nat, forceTerminal: bool, output: int, t: map<Key, Row>,
      copies: map<Key, Key>, t': map<Key, Row>)
    requires i < |keys| && DistinctKeys(keys) && forall k | k in keys :: k in t0
    requires Outcome(t0, keys, i, forceTerminal, output, t, copies)
    requires IndexesHold(t') && Grown(t, t') && forall k | k in t' && k !in t :: k == keys[i]
    requires Became(t0, keys[i], forceTerminal, output, t')
    requires Retried(t', keys[i]) || t0[keys[i]].deadLetter == None
    ensures Outcome(t0, keys, i + 1, forceTerminal, output, t', copies)
  {
    RowsNext(t0, keys, i, forceTerminal, output, t, t');
    CopiesStay(t0, keys, i, output, t, copies, t');
    forall k | k in t' ensures k in t0 || k in copies.Values {
      assert k in t ==> k in t0 || k in copies.Values;
    }
  }

  lemma OutcomeWithCopy(t0: map<Key, Row>, keys: seq<Key>, i: nat, forceTerminal: bool, output: int, t: map<Key, Row>,
      copies: map<Key, Key>,
                        middle: map<Key, Row>, copy: Key)
    requires i < |keys| && DistinctKeys(keys) && forall k | k in keys :: k in t0
    requires Outcome(t0, keys, i, forceTerminal, output, t, copies)
    requires Grown(t, middle) && forall k | k in middle && k !in t :: k == keys[i]
    requires Became(t0, keys[i], forceTerminal, output, middle)
    requires !Retried(middle, keys[i]) && t0[keys[i]].deadLetter == Some(copy.queue) && copy !in middle && copy !in t0
    requires IndexesHold(middle[copy := Copy(keys[i], t0[keys[i]], output)])
    ensures Outcome(t0, keys, i + 1, forceTerminal, output, middle[copy := Copy(keys[i], t0[keys[i]], output)],
        copies[keys[i] := copy])
  {
    var t' := middle[copy := Copy(keys[i], t0[keys[i]], output)];
    BecameStays(t0, keys[i], forceTerminal, output, middle, t');
    RowsNext(t0, keys, i, forceTerminal, output, t, t');
    CopiesStay(t0, keys, i, output, t, copies, t');
    CopyAdded(t0, keys, i, output, t, copies, t', copy);
  }

  lemma CopyAdded(t0: map<Key, Row>, keys: seq<Key>, i: nat, output: int, t: map<Key, Row>, copies: map<Key, Key>,
      t': map<Key, Row>, copy: Key)
    requires i < |keys| && DistinctKeys(keys) && forall k | k in keys :: k in t0
    requires CopiesOutcome(t0, keys, i, output, t, copies) && copy !in t && Copied(t0, keys[i], output, t', copy)
    requires forall k | k in t' && k !in t :: k == keys[i] || k == copy
    requires forall k | k in copies :: k in keys && Copied(t0, k, output, t', copies[k])
    requires forall m | 0 <= m < i :: keys[m] in copies <==> !Retried(t', keys[m]) && t0[keys[m]].deadLetter.Some?
    requires !Retried(t', keys[i])
    ensures CopiesOutcome(t0, keys, i + 1, output, t', copies[keys[i] := copy])
  {
    var copies' := copies[keys[i] := copy];
    assert keys[i] !in copies;
    forall a | a in copies ensures copies[a] != copy {
      assert Copied(t0, a, output, t, copies[a]);
    }
    forall k | k in t' ensures k in t0 || k in copies'.Values {
      if k == copy {
        assert copies'[keys[i]] == k;
      } else if k in t && k !in t0 {
        assert k in copies.Values;
        var a :| a in copies && copies[a] == k;
        assert copies'[a] == k;
      }
    }
  }

  // ---- When no job is lost ---------------------------------------------------------------------

  /** Another job of the queue that wants, or has, the key_strict_fifo key of `k`. */
  predicate Rivals(t0: map<Key, Row>, keys: seq<Key>, k: Key, other: Key)
    requires k in t0 && other in t0
  {
    && other != k && other.queue == k.queue
    && t0[k].policy == t0[other].policy == KeyStrictFifo
    && t0[k].singletonKey.Some? && t0[k].singletonKey == t0[other].singletonKey
    && (other in keys || HoldsKey(t0[other].state))
  }

  ghost predicate NoRivals(t0: map<Key, Row>, keys: seq<Key>)
    requires forall k | k in keys :: k in t0
  {
    forall k, other | k in keys && other in t0 :: !Rivals(t0, keys, k, other)
  }

  lemma OldRowIsRival(t0: map<Key, Row>, keys: seq<Key>, k: Key, other: Key, row: Row, output: int)
    requires IndexesHold(t0) && k in t0 && other in t0 && other != k && other.queue == k.queue
    requires Failable(t0[k]) && Clash(Reinserted(t0[k], Failed, output), row)
    requires row == t0[other] || (other in keys && Failable(t0[other])
        && (row == Reinserted(t0[other], Retry, output) || row == Reinserted(t0[other], Failed, output)))
    ensures Rivals(t0, keys, k, other)
  {
    assert Together(t0, k, other);
  }

  lemma CopiesRefuseNothing(t0: map<Key, Row>, keys: seq<Key>, output: int, t: map<Key, Row>, copies: map<Key, Key>,
      row: Row)
    requires (forall k | k in keys :: k in t0) && CopiesOutcome(t0, keys, |keys|, output, t, copies)
    ensures forall other | other in t && Clash(row, t[other]) :: other in t0
  {
    forall other | other in t && other !in t0 ensures !Clash(row, t[other]) {
      assert other in copies.Values;
      var a :| a in copies && copies[a] == other;
      assert Copied(t0, a, output, t, copies[a]);
    }
  }

  /** The only index that can refuse a row put back as `failed` is job_i8, and only to a rival. */
  lemma RefusedByRival(t0: map<Key, Row>, keys: seq<Key>, forceTerminal: bool, output: int, t: map<Key, Row>,
      copies: map<Key, Key>, m: nat) returns (other: Key)
    requires IndexesHold(t0) && DistinctKeys(keys) && forall k | k in keys :: k in t0 && Failable(t0[k])
    requires Outcome(t0, keys, |keys|, forceTerminal, output, t, copies)
    requires m < |keys| && keys[m] !in t
    ensures other in t0 && Rivals(t0, keys, keys[m], other)
  {
    var k := keys[m];
    assert Became(t0, k, forceTerminal, output, t);
    CopiesRefuseNothing(t0, keys, output, t, copies, Reinserted(t0[k], Failed, output));
    other :| other in t && other != k && other.queue == k.queue && Clash(Reinserted(t0[k], Failed, output), t[other]);
    assert other in t0;
    if other in keys {
      var j :| 0 <= j < |keys| && keys[j] == other;
      assert Became(t0, keys[j], forceTerminal, output, t);
    }
    OldRowIsRival(t0, keys, k, other, t[other], output);
  }

  lemma KeptHaveNoRival(t0: map<Key, Row>, keys: seq<Key>, forceTerminal: bool, output: int, t: map<Key, Row>, k: Key,
      other: Key)
    requires forall j | j in keys :: j in t0
    requires RowsOutcome(t0, keys, |keys|, forceTerminal, output, t) && forall j | j in keys :: j in t
    requires k in keys && other in t0
    ensures !Rivals(t0, keys, k, other)
  {
    var m :| 0 <= m < |keys| && keys[m] == k;
    assert Became(t0, keys[m], forceTerminal, output, t);
    if other in keys {
      var j :| 0 <= j < |keys| && keys[j] == other;
      assert Became(t0, keys[j], forceTerminal, output, t);
    }
    assert Together(t, k, other);
  }

  /**
   No job is lost on failure exactly when no selected key_strict_fifo job has a rival for its key: the
   select also takes queued jobs, and one of those can share its key with the job that holds it.
   */
  lemma NoneLostIffNoRivals(t0: map<Key, Row>, keys: seq<Key>, forceTerminal: bool, output: int, t: map<Key, Row>,
      copies: map<Key, Key>)
    requires IndexesHold(t0) && DistinctKeys(keys) && forall k | k in keys :: k in t0 && Failable(t0[k])
    requires Outcome(t0, keys, |keys|, forceTerminal, output, t, copies)
    ensures (forall k | k in keys :: k in t) <==> NoRivals(t0, keys)
  {
    if m :| 0 <= m < |keys| && keys[m] !in t {
      var other := RefusedByRival(t0, keys, forceTerminal, output, t, copies, m);
      assert keys[m] in keys;
    } else {
      forall k, other | k in keys && other in t0 ensures !Rivals(t0, keys, k, other) {
        KeptHaveNoRival(t0, keys, forceTerminal, output, t, k, other);
      }
    }
  }

  /** In particular when only active jobs are failed, which is all a worker or an expiry sweep ever fails. */
  lemma ActiveJobsHaveNoRivals(t0: map<Key, Row>, keys: seq<Key>)
    requires IndexesHold(t0) && forall k | k in keys :: k in t0 && t0[k].state == Active
    ensures NoRivals(t0, keys)
  {
    forall k, other | k in keys && other in t0 ensures !Rivals(t0, keys, k, other) {
      assert Together(t0, k, other);
    }
  }

  /**
   The rival is real: failing a queued job whose key an active job holds deletes it and puts nothing
   back. It can be retried, has no dead letter queue, and the table it leaves satisfies every index.
   */
  lemma QueuedJobLost()
    ensures var active := Row(Active, KeyStrictFifo, Some("order-1"), None, false, 0, 2, None, 0, 0, None);
      var queued := active.(state := Created);
      var t0 := map[Key("orders", 1) := active, Key("orders", 2) := queued];
      && IndexesHold(t0) && Failable(queued) && CanRetry(queued, false)
      && Outcome(t0, [Key("orders", 2)], 1, false, 0, map[Key("orders", 1) := active], map[])
  {
    var active := Row(Active, KeyStrictFifo, Some("order-1"), None, false, 0, 2, None, 0, 0, None);
    var queued := active.(state := Created);
    var t0 := map[Key("orders", 1) := active, Key("orders", 2) := queued];
    var t := map[Key("orders", 1) := active];
    assert Clash(Reinserted(queued, Failed, 0), t[Key("orders", 1)]);
    assert Refused(t, Key("orders", 2), Reinserted(queued, Failed, 0));
    assert Became(t0, Key("orders", 2), false, 0, t);
  }
}
