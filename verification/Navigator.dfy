/**
 The resolver's statements and its drain loop: `#resolve` in src/navigator.ts, and
 `resolveFlowJobsDistributed` in src/manager.ts for databases that allow one mutation a statement.
 */
module Navigator {
  import opened Arithmetic
  import opened FlowRows
  import opened FlowRun
  import Sets

  const FLOW_BATCH_SIZE: nat := 1000
  const MAX_BATCHES_PER_PASS: nat := 100
  const CHUNK: nat := 100

  /** The parents of these queues waiting for the resolver. */
  function Eligible(jobs: map<Key, Job>, names: seq<string>): set<Key>
  {
    set k | k in jobs && Resolvable(jobs[k]) && k.queue in names
  }

  function KeySet(keys: seq<Key>): set<Key>
  {
    set k | k in keys
  }

  ghost predicate DistinctSeq(keys: seq<Key>)
  {
    forall i, j | 0 <= i < j < |keys| :: keys[i] != keys[j]
  }

  lemma {:induction false} DistinctSeqSize(keys: seq<Key>)
    requires DistinctSeq(keys)
    ensures |KeySet(keys)| == |keys|
  {
    if keys != [] {
      var n := |keys| - 1;
      DistinctSeqSize(keys[..n]);
      assert KeySet(keys) == KeySet(keys[..n]) + {keys[n]};
    }
  }

  /** Resolving some parents leaves the rest as eligible as they were. */
  lemma EligibleLeft(jobs: map<Key, Job>, deps: set<Dep>, names: seq<string>, batch: set<Key>)
    ensures Eligible(Resolved(jobs, deps, batch), names) == Eligible(jobs, names) - batch
  {
    var jobs' := Resolved(jobs, deps, batch);
    assert forall k | k in jobs ::
        jobs'[k].state == jobs[k].state
        && jobs'[k].blocking == (jobs[k].blocking && k !in batch);
  }

  /** One queue's share of the two statements `resolveFlowJobsDistributed` runs for it. */
  function Decremented(jobs: map<Key, Job>, deps: set<Dep>, batch: set<Key>): map<Key, Job>
  {
    map k | k in jobs :: Decrement(jobs[k], |ParentsIn(deps, k, batch)|)
  }

  function Cleared(jobs: map<Key, Job>, batch: set<Key>): map<Key, Job>
  {
    map k | k in jobs :: if k in batch then jobs[k].(blocking := false) else jobs[k]
  }

  lemma ClearedAfterDecrement(jobs: map<Key, Job>, deps: set<Dep>, batch: set<Key>)
    ensures Cleared(Decremented(jobs, deps, batch), batch) == Resolved(jobs, deps, batch)
  {
    var parts, whole := Cleared(Decremented(jobs, deps, batch), batch), Resolved(jobs, deps, batch);
    forall k | k in jobs ensures parts[k] == whole[k] {
    }
  }

  class FlowTable {
    /** The primary keys in index order, which is the order a batch is taken in. */
    var keys: seq<Key>
    var jobs: map<Key, Job>
    var deps: set<Dep>

    ghost predicate Valid()
      reads this
    {
      DistinctSeq(keys) && KeySet(keys) == jobs.Keys
    }

    constructor (keys: seq<Key>, jobs: map<Key, Job>, deps: set<Dep>)
      requires DistinctSeq(keys) && KeySet(keys) == jobs.Keys
      ensures Valid() && this.keys == keys && this.jobs == jobs && this.deps == deps
    {
      this.keys, this.jobs, this.deps := keys, jobs, deps;
    }

    /** `selectBlockingParents`: the first completed blocking parents of these queues, a batch at most. */
    method SelectBlockingParents(names: seq<string>) returns (rows: seq<Key>)
      requires Valid()
      ensures DistinctSeq(rows) && KeySet(rows) <= Eligible(jobs, names)
      ensures |rows| == Min(1000, |Eligible(jobs, names)|)
    {
      rows := [];
      for i := 0 to |keys|
        invariant DistinctSeq(rows) && |rows| <= FLOW_BATCH_SIZE
        invariant forall k | k in rows :: k in keys[..i] && k in Eligible(jobs, names)
        invariant |rows| < FLOW_BATCH_SIZE ==> forall k | k in keys[..i] && k in Eligible(jobs, names) :: k in rows
      {
        var k := keys[i];
        assert k in KeySet(keys);
        assert k !in keys[..i];
        if |rows| < FLOW_BATCH_SIZE && Resolvable(jobs[k]) && k.queue in names {
          rows := rows + [k];
        }
      }
      DistinctSeqSize(rows);
      assert KeySet(rows) <= Eligible(jobs, names);
      if |rows| < FLOW_BATCH_SIZE {
        forall k | k in Eligible(jobs, names) ensures k in KeySet(rows) {
          assert k in KeySet(keys);
          assert keys[..|keys|] == keys;
        }
        assert KeySet(rows) == Eligible(jobs, names);
      } else {
        Sets.SubsetSize(KeySet(rows), Eligible(jobs, names));
      }
    }

    /** `resolveFlowJobs`: one statement that takes a batch, decrements its children and clears its flags. */
    method ResolveStandard(names: seq<string>) returns (resolved: nat, ghost batch: set<Key>)
      requires Valid()
      modifies this`jobs
      ensures Valid()
      ensures batch <= Eligible(old(jobs), names)
          && resolved == |batch| == Min(FLOW_BATCH_SIZE, |Eligible(old(jobs), names)|)
      ensures jobs == Resolved(old(jobs), deps, batch)
    {
      var rows := SelectBlockingParents(names);
      batch := KeySet(rows);
      DistinctSeqSize(rows);
      jobs := Resolved(jobs, deps, KeySet(rows));
      resolved := |rows|;
    }

    /** The same in one statement per queue and mutation, with the same outcome. */
    method ResolveDistributed(names: seq<string>) returns (resolved: nat, ghost batch: set<Key>)
      requires Valid()
      modifies this`jobs
      ensures Valid()
      ensures batch <= Eligible(old(jobs), names)
          && resolved == |batch| == Min(FLOW_BATCH_SIZE, |Eligible(old(jobs), names)|)
      ensures jobs == Resolved(old(jobs), deps, batch)
    {
      ghost var jobs0 := jobs;
      var rows := SelectBlockingParents(names);
      batch := KeySet(rows);
      DistinctSeqSize(rows);
      QueuesBegin(jobs0, deps, rows);
      if |rows| == 0 {
        return 0, batch;
      }
      var queues, idsByName := GroupByQueue(rows);
      for i := 0 to |queues|
        invariant Valid() && QueuesDone(jobs0, deps, rows, queues[..i], jobs)
      {
        ghost var before := jobs;
        ResolveQueue(idsByName[queues[i]]);
        QueuesStep(jobs0, deps, rows, queues, i, before, KeySet(idsByName[queues[i]]), jobs);
      }
      QueuesEnd(jobs0, deps, rows, queues, jobs);
      resolved := |rows|;
    }

    /** `decrementDependents` and `clearBlocking` for the parents of one queue. */
    method ResolveQueue(ids: seq<Key>)
      requires Valid()
      modifies this`jobs
      ensures Valid() && jobs == Cleared(Decremented(old(jobs), deps, KeySet(ids)), KeySet(ids))
    {
      jobs := Decremented(jobs, deps, KeySet(ids));
      jobs := Cleared(jobs, KeySet(ids));
    }

    method ResolveBatch(names: seq<string>, distributed: bool) returns (resolved: nat, ghost batch: set<Key>)
      requires Valid()
      modifies this`jobs
      ensures Valid()
      ensures batch <= Eligible(old(jobs), names)
          && resolved == |batch| == Min(FLOW_BATCH_SIZE, |Eligible(old(jobs), names)|)
      ensures jobs == Resolved(old(jobs), deps, batch)
    {
      if distributed {
        resolved, batch := ResolveDistributed(names);
      } else {
        resolved, batch := ResolveStandard(names);
      }
    }

    /**
     One chunk of queues, drained a batch at a time. `stops(n)` says whether stop() has been called by the
     time `n` batches are done. Left alone, the loop resolves everything eligible or its full quota.
     */
    method DrainChunk(names: seq<string>, distributed: bool, stops: nat -> bool) returns (ghost drained: set<Key>)
      requires Valid()
      modifies this`jobs
      ensures Valid()
      ensures Drained(old(jobs), deps, names, drained, jobs)
      ensures (forall n :: !stops(n)) ==>
          |drained| == Min(100 * 1000, |Eligible(old(jobs), names)|)
    {
      var batches: nat := 0;
      drained := {};
      ResolvedNothing(jobs, deps);
      while true
        invariant Valid() && batches < MAX_BATCHES_PER_PASS
        invariant Drained(old(jobs), deps, names, drained, jobs) && |drained| == FLOW_BATCH_SIZE * batches
        decreases MAX_BATCHES_PER_PASS - batches
      {
        if stops(batches) {
          return;
        }
        ghost var before := jobs;
        var resolved;
        ghost var batch;
        resolved, batch := ResolveBatch(names, distributed);
        DrainMore(old(jobs), deps, names, drained, before, batch);
        DrainCount(batches, resolved, |Eligible(before, names)|, |Eligible(old(jobs), names)|);
        drained := drained + batch;
        if resolved < FLOW_BATCH_SIZE {
          break;
        }
        batches := batches + 1;
        if batches >= MAX_BATCHES_PER_PASS || stops(batches) {
          break;
        }
      }
    }

    /**
     A pass over one table's queues, a chunk of a hundred names at a time. `stops(c, n)` says whether stop()
     has been called by the time `n` batches of chunk `c` are done; the pass ends there, and what it has
     resolved stays resolved. Left alone, it leaves nothing eligible unless some chunk has more than a quota.
     */
    method ResolvePass(names: seq<string>, distributed: bool, stops: (nat, nat) -> bool)
        returns (ghost drained: set<Key>)
      requires Valid()
      modifies this`jobs
      ensures Valid()
      ensures Drained(old(jobs), deps, names, drained, jobs)
      ensures (forall c, n :: !stops(c, n)) && ChunksFit(old(jobs), names) ==> Eligible(jobs, names) == {}
    {
      ghost var jobs0 := jobs;
      ghost var alone := forall c, n :: !stops(c, n);
      ghost var taken: seq<string> := [];
      var rest := names;
      var chunks: nat := 0;
      drained := {};
      PassBegins(jobs0, deps, names, alone);
      while |rest| > 0
        invariant Valid() && PassInv(jobs0, deps, names, taken, rest, drained, jobs, alone)
        decreases |rest|
      {
        if stops(chunks, 0) {
          return;
        }
        ghost var before := jobs;
        ghost var batch := DrainChunk(FirstChunk(rest), distributed, (n: nat) => stops(chunks, n));
        PassStep(jobs0, deps, names, taken, rest, drained, before, alone, batch, jobs);
        taken, drained := taken + FirstChunk(rest), drained + batch;
        rest := AfterChunk(rest);
        chunks := chunks + 1;
      }
      PassEnds(jobs0, deps, names, taken, rest, drained, jobs, alone);
    }
  }

  // ---- One queue of a batch --------------------------------------------------------------------

  /** The selected parents that are in these queues. */
  function InQueues(rows: seq<Key>, queues: seq<string>): set<Key>
  {
    set k | k in rows && k.queue in queues
  }

  /** What the statements for these queues have made of the table. */
  ghost predicate QueuesDone(jobs0: map<Key, Job>, deps: set<Dep>, rows: seq<Key>, queues: seq<string>,
      jobs: map<Key, Job>)
  {
    jobs == Resolved(jobs0, deps, InQueues(rows, queues))
  }

  lemma QueuesBegin(jobs: map<Key, Job>, deps: set<Dep>, rows: seq<Key>)
    ensures QueuesDone(jobs, deps, rows, [], jobs)
    ensures rows == [] ==> jobs == Resolved(jobs, deps, KeySet(rows))
  {
    ResolvedNothing(jobs, deps);
    assert InQueues(rows, []) == {};
    assert rows == [] ==> KeySet(rows) == {};
  }

  lemma QueuesEnd(jobs0: map<Key, Job>, deps: set<Dep>, rows: seq<Key>, queues: seq<string>, jobs: map<Key, Job>)
    requires QueuesDone(jobs0, deps, rows, queues[..|queues|], jobs) && forall k | k in rows :: k.queue in queues
    ensures jobs == Resolved(jobs0, deps, KeySet(rows))
  {
    assert queues[..|queues|] == queues;
    assert InQueues(rows, queues) == KeySet(rows);
  }

  lemma QueuesStep(jobs0: map<Key, Job>, deps: set<Dep>, rows: seq<Key>, queues: seq<string>, i: nat,
      jobs: map<Key, Job>, mine: set<Key>, jobs': map<Key, Job>)
    requires i < |queues| && (forall a, b | 0 <= a < b < |queues| :: queues[a] != queues[b])
    requires mine == set k | k in rows && k.queue == queues[i]
    requires QueuesDone(jobs0, deps, rows, queues[..i], jobs)
    requires jobs' == Cleared(Decremented(jobs, deps, mine), mine)
    ensures QueuesDone(jobs0, deps, rows, queues[..i + 1], jobs')
  {
    var done := InQueues(rows, queues[..i]);
    assert queues[..i + 1] == queues[..i] + [queues[i]];
    assert InQueues(rows, queues[..i + 1]) == done + mine;
    assert done !! mine;
    ClearedAfterDecrement(jobs, deps, mine);
    ResolvedInParts(jobs0, deps, done, mine);
  }

  // ---- One chunk of a pass ---------------------------------------------------------------------

  /** `names.splice(0, 100)` */
  function FirstChunk(names: seq<string>): seq<string>
  {
    names[..Min(CHUNK, |names|)]
  }

  function AfterChunk(names: seq<string>): seq<string>
  {
    names[Min(CHUNK, |names|)..]
  }

  /** No chunk of these queues has a backlog of more than a quota. */
  ghost predicate ChunksFit(jobs: map<Key, Job>, names: seq<string>)
    decreases |names|
  {
    names == [] || (|Eligible(jobs, FirstChunk(names))| <= FLOW_BATCH_SIZE * MAX_BATCHES_PER_PASS
        && ChunksFit(jobs, AfterChunk(names)))
  }

  /** The names of the `i`th hundred. */
  function Hundred(names: seq<string>, i: nat): seq<string>
  {
    names[Min(100 * i, |names|)..Min(100 * (i + 1), |names|)]
  }

  /** No more of them are waiting than a hundred batches of a thousand take. */
  ghost predicate HundredFits(jobs: map<Key, Job>, names: seq<string>, i: nat)
  {
    |Eligible(jobs, Hundred(names, i))| <= 100 * 1000
  }

  /** Which is to say: it is so of every hundred, from the first on. */
  lemma {:induction false} ChunksAreHundreds(jobs: map<Key, Job>, names: seq<string>)
    ensures ChunksFit(jobs, names) <==> forall i: nat :: HundredFits(jobs, names, i)
    decreases |names|
  {
    if names == [] {
      forall i: nat ensures HundredFits(jobs, names, i) {
        assert Hundred(names, i) == [] && Eligible(jobs, []) == {};
      }
    } else {
      var rest := AfterChunk(names);
      ChunksAreHundreds(jobs, rest);
      assert Hundred(names, 0) == FirstChunk(names);
      forall i: nat ensures HundredFits(jobs, names, i + 1) == HundredFits(jobs, rest, i) {
        HundredsShift(names, i);
      }
      if ChunksFit(jobs, names) {
        forall i: nat ensures HundredFits(jobs, names, i) {
          assert i > 0 ==> HundredFits(jobs, names, (i - 1) + 1) == HundredFits(jobs, rest, i - 1);
        }
      } else if HundredFits(jobs, names, 0) {
        var i: nat :| !HundredFits(jobs, rest, i);
        assert !HundredFits(jobs, names, i + 1);
      }
    }
  }

  lemma HundredsShift(names: seq<string>, i: nat)
    ensures Hundred(names, i + 1) == Hundred(AfterChunk(names), i)
  {
    var rest := AfterChunk(names);
    if |names| <= 100 {
      assert rest == [] && Hundred(names, i + 1) == [];
    } else {
      SliceOfRest(names, 100, Min(100 * i, |rest|), Min(100 * (i + 1), |rest|));
    }
  }

  lemma SliceOfRest(names: seq<string>, from: nat, lo: nat, hi: nat)
    requires from <= |names| && lo <= hi <= |names| - from
    ensures names[from..][lo..hi] == names[from + lo..from + hi]
  {
  }

  /** What a pass has done once `taken` is behind it: if it was left alone, nothing there is eligible. */
  ghost predicate PassInv(jobs0: map<Key, Job>, deps: set<Dep>, names: seq<string>, taken: seq<string>,
      rest: seq<string>,
                          drained: set<Key>, jobs: map<Key, Job>, alone: bool)
  {
    && taken + rest == names
    && Drained(jobs0, deps, names, drained, jobs)
    && (alone && ChunksFit(jobs0, names) ==> ChunksFit(jobs0, rest) && Eligible(jobs, taken) == {})
  }

  lemma PassBegins(jobs: map<Key, Job>, deps: set<Dep>, names: seq<string>, alone: bool)
    ensures PassInv(jobs, deps, names, [], names, {}, jobs, alone)
  {
    ResolvedNothing(jobs, deps);
  }

  lemma PassEnds(jobs0: map<Key, Job>, deps: set<Dep>, names: seq<string>, taken: seq<string>, rest: seq<string>,
                 drained: set<Key>, jobs: map<Key, Job>, alone: bool)
    requires PassInv(jobs0, deps, names, taken, rest, drained, jobs, alone) && rest == []
    ensures alone && ChunksFit(jobs0, names) ==> Eligible(jobs, names) == {}
  {
    assert taken == names;
  }

  lemma PassStep(jobs0: map<Key, Job>, deps: set<Dep>, names: seq<string>, taken: seq<string>, rest: seq<string>,
                 drained: set<Key>, jobs: map<Key, Job>, alone: bool, batch: set<Key>, jobs': map<Key, Job>)
    requires PassInv(jobs0, deps, names, taken, rest, drained, jobs, alone) && rest != []
    requires Drained(jobs, deps, FirstChunk(rest), batch, jobs')
    requires alone ==> |batch| == Min(FLOW_BATCH_SIZE * MAX_BATCHES_PER_PASS, |Eligible(jobs, FirstChunk(rest))|)
    ensures PassInv(jobs0, deps, names, taken + FirstChunk(rest), AfterChunk(rest), drained + batch, jobs', alone)
  {
    var chunk := FirstChunk(rest);
    assert rest == chunk + AfterChunk(rest);
    TakenNames(taken, chunk, AfterChunk(rest), names);
    ChunkDrained(jobs0, deps, names, drained, jobs, taken, chunk, batch, alone);
  }

  lemma TakenNames(taken: seq<string>, chunk: seq<string>, rest: seq<string>, names: seq<string>)
    requires taken + (chunk + rest) == names
    ensures (taken + chunk) + rest == names
    ensures forall name | name in taken + chunk :: name in names
  {
    assert (taken + chunk) + rest == names;
  }

  /** `jobs` is what resolving `drained`, out of the parents of these queues, made of `jobs0`. */
  ghost predicate Drained(jobs0: map<Key, Job>, deps: set<Dep>, names: seq<string>, drained: set<Key>, jobs: map<Key,
      Job>)
  {
    drained <= Eligible(jobs0, names) && jobs == Resolved(jobs0, deps, drained)
  }

  lemma DrainMore(jobs0: map<Key, Job>, deps: set<Dep>, names: seq<string>, drained: set<Key>, jobs: map<Key, Job>,
      batch: set<Key>)
    requires Drained(jobs0, deps, names, drained, jobs) && batch <= Eligible(jobs, names)
    ensures Drained(jobs0, deps, names, drained + batch, Resolved(jobs, deps, batch))
    ensures |drained + batch| == |drained| + |batch| && |Eligible(jobs, names)| == |Eligible(jobs0, names)| - |drained|
  {
    EligibleLeft(jobs0, deps, names, drained);
    SetsAddUp(Eligible(jobs0, names), drained, batch);
    ResolvedInParts(jobs0, deps, drained, batch);
  }

  /** A batch that is not full is the last there is, and one that fills the quota is the last there may be. */
  lemma DrainCount(batches: nat, resolved: nat, left: nat, all: nat)
    requires batches < MAX_BATCHES_PER_PASS && resolved == Min(FLOW_BATCH_SIZE, left)
        && FLOW_BATCH_SIZE * batches + left == all
    ensures resolved < FLOW_BATCH_SIZE || batches + 1 == MAX_BATCHES_PER_PASS ==>
      FLOW_BATCH_SIZE * batches + resolved == Min(FLOW_BATCH_SIZE * MAX_BATCHES_PER_PASS, all)
  {
  }

  lemma SetsAddUp(all: set<Key>, drained: set<Key>, batch: set<Key>)
    requires drained <= all && batch <= all - drained
    ensures drained !! batch && drained + batch <= all
    ensures |drained + batch| == |drained| + |batch| && |all - drained| == |all| - |drained|
  {
    assert (all - drained) + drained == all;
  }

  /**
   Draining one more chunk takes nothing from what was drained before, and if nothing was left in the chunks
   before it and its own backlog fits a quota, leaves nothing in them or in it.
   */
  lemma ChunkDrained(jobs0: map<Key, Job>, deps: set<Dep>, names: seq<string>, drained: set<Key>, jobs: map<Key, Job>,
                     taken: seq<string>, chunk: seq<string>, batch: set<Key>, alone: bool)
    requires Drained(jobs0, deps, names, drained, jobs) && batch <= Eligible(jobs, chunk)
    requires forall name | name in taken + chunk :: name in names
    requires alone ==> |batch| == Min(FLOW_BATCH_SIZE * MAX_BATCHES_PER_PASS, |Eligible(jobs, chunk)|)
    ensures Drained(jobs0, deps, names, drained + batch, Resolved(jobs, deps, batch))
    ensures (alone && |Eligible(jobs0, chunk)| <= FLOW_BATCH_SIZE * MAX_BATCHES_PER_PASS && Eligible(jobs, taken) == {})
      ==> Eligible(Resolved(jobs, deps, batch), taken + chunk) == {}
  {
    EligibleNames(jobs, taken, chunk, names);
    DrainMore(jobs0, deps, names, drained, jobs, batch);
    EligibleLeft(jobs0, deps, chunk, drained);
    Sets.SubsetSize(Eligible(jobs, chunk), Eligible(jobs0, chunk));
    EligibleLeft(jobs, deps, taken + chunk, batch);
    if |batch| == |Eligible(jobs, chunk)| {
      Sets.SameSize(batch, Eligible(jobs, chunk));
    }
  }

  lemma EligibleNames(jobs: map<Key, Job>, taken: seq<string>, chunk: seq<string>, names: seq<string>)
    requires forall name | name in taken + chunk :: name in names
    ensures Eligible(jobs, chunk) <= Eligible(jobs, names)
    ensures Eligible(jobs, taken + chunk) == Eligible(jobs, taken) + Eligible(jobs, chunk)
  {
  }

  lemma ResolvedNothing(jobs: map<Key, Job>, deps: set<Dep>)
    ensures Resolved(jobs, deps, {}) == jobs
  {
    forall k | k in jobs ensures Resolved(jobs, deps, {})[k] == jobs[k] {
      assert ParentsIn(deps, k, {}) == {};
    }
  }

  /** The selected parents by queue, in the order the queues first appear: `idsByName`. */
  method GroupByQueue(rows: seq<Key>) returns (queues: seq<string>, idsByName: map<string, seq<Key>>)
    ensures idsByName.Keys == set q | q in queues
    ensures forall i, j | 0 <= i < j < |queues| :: queues[i] != queues[j]
    ensures forall q | q in idsByName :: KeySet(idsByName[q]) == set k | k in rows && k.queue == q
    ensures forall k | k in rows :: k.queue in queues
  {
    queues, idsByName := [], map[];
    for i := 0 to |rows|
      invariant idsByName.Keys == set q | q in queues
      invariant forall a, b | 0 <= a < b < |queues| :: queues[a] != queues[b]
      invariant forall q | q in idsByName :: KeySet(idsByName[q]) == set k | k in rows[..i] && k.queue == q
      invariant forall k | k in rows[..i] :: k.queue in queues
    {
      var row := rows[i];
      ghost var before := idsByName;
      if row.queue !in idsByName {
        queues := queues + [row.queue];
        idsByName := idsByName[row.queue := []];
      }
      idsByName := idsByName[row.queue := idsByName[row.queue] + [row]];
      forall q | q in idsByName ensures KeySet(idsByName[q]) == set k | k in rows[..i + 1] && k.queue == q {
        GroupNext(before, rows, i, q);
      }
    }
    assert rows[..|rows|] == rows;
  }

  lemma GroupNext(groups: map<string, seq<Key>>, rows: seq<Key>, i: nat, q: string)
    requires i < |rows|
    requires q in groups ==> KeySet(groups[q]) == set k | k in rows[..i] && k.queue == q
    requires q !in groups ==> q == rows[i].queue && forall k | k in rows[..i] :: k.queue != q
    ensures var ids := if q in groups then groups[q] else [];
      KeySet(if q == rows[i].queue then ids + [rows[i]] else ids) == set k | k in rows[..i + 1] && k.queue == q
  {
    assert rows[..i + 1] == rows[..i] + [rows[i]];
    var ids := if q in groups then groups[q] else [];
    assert KeySet(ids + [rows[i]]) == KeySet(ids) + {rows[i]};
  }
}
