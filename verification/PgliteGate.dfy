/**
 The PGlite adapter's gate (src/adapters/pglite.ts): a leader change gives a new session that has none of
 the session statements, a chain applies them again, and queries wait until the chain of the session
 there is now has done so.

 A run begins once `setSessionStatements()` has completed, with a fixed list of `n` statements. A
 statement that was sent to a session that is gone does not reach the next one.
 */
module PgliteGate {
  import opened Options
  import opened Runs

  /**
   One call of `applySessionStatements()` and what follows it. `Sent` is a statement in flight, `Answered`
   one whose answer the chain has not taken up yet; `Lost` one failed by a leader change, `Failed` one that
   failed by itself; `Settled` is before, and `Ended` after, the callback that may open the gate.
   */
  datatype Phase = Sent | Answered | Lost | Failed | Settled | Ended

  /** `session` is the one the chain was made for, and `sentTo` the one its latest statement was sent to. */
  datatype Chain = Chain(session: nat, index: nat, sentTo: nat, phase: Phase)

  /**
   A query waits for a chain, is in flight on a session, or is over. `ready` is what its session had when it was sent.
   */
  datatype Query = Waiting(chain: nat) | Flying(session: nat, ready: bool) | Over(lost: bool)

  /**
   `received` holds the statements the present session has received, by position; `broken` says that one
   of the chain applying them to it failed by itself.
   */
  datatype Gate = Gate(session: nat, received: set<nat>, broken: bool, reapplying: Option<nat>, chains: map<nat,
      Chain>, queries: map<nat, Query>, nextChain: nat)

  datatype Step =
    | LeaderChange
    | Land(chain: nat)
    | FailAlone(chain: nat)
    | Resume(chain: nat)
    | Clear(chain: nat)
    | Arrive(query: nat)
    | Wake(query: nat)
    | Answer(query: nat)

  predicate Upto(received: set<nat>, index: nat)
  {
    forall i: nat | i < index :: i in received
  }

  /** The session has everything, or a statement of its chain failed by itself. */
  predicate Ready(n: nat, g: Gate)
  {
    Upto(g.received, n) || g.broken
  }

  ghost predicate IsInit(n: nat, g: Gate)
  {
    Upto(g.received, n) && g == Gate(0, g.received, false, None, map[], map[], 0)
  }

  predicate InPhase(g: Gate, c: nat, phase: Phase)
  {
    c in g.chains && g.chains[c].phase == phase
  }

  predicate Enabled(g: Gate, step: Step)
  {
    match step
    case LeaderChange => true
    case Land(c) => InPhase(g, c, Sent)
    case FailAlone(c) => InPhase(g, c, Sent)
    case Resume(c) => InPhase(g, c, Answered) || InPhase(g, c, Lost) || InPhase(g, c, Failed)
    case Clear(c) => InPhase(g, c, Settled)
    case Arrive(q) => q !in g.queries
    case Wake(q) => q in g.queries && g.queries[q].Waiting? && InPhase(g, g.queries[q].chain, Ended)
    case Answer(q) => q in g.queries && g.queries[q].Flying?
  }

  function LoseChain(c: Chain): Chain
  {
    if c.phase == Sent then c.(phase := Lost) else c
  }

  function LoseQuery(q: Query): Query
  {
    if q.Flying? then Over(true) else q
  }

  /** A new session, and every statement in flight failed. */
  function AllLost(g: Gate): Gate
  {
    g.(session := g.session + 1, received := {}, broken := false,
       chains := map c | c in g.chains :: LoseChain(g.chains[c]), queries := map q | q in g.queries ::
           LoseQuery(g.queries[q]))
  }

  /** Every statement in flight is failed, and, if there are session statements, a new chain sends the first. */
  function Changed(n: nat, g: Gate): Gate
  {
    var lost := AllLost(g);
    if n == 0 then lost
    else lost.(reapplying := Some(g.nextChain),
        chains := lost.chains[g.nextChain := Chain(lost.session, 0, lost.session, Sent)], nextChain := g.nextChain + 1)
  }

  /** The next statement goes to whatever session there is now, or the chain has settled. */
  function Resumed(n: nat, session: nat, c: Chain): Chain
  {
    if c.phase == Answered && c.index + 1 < n then Chain(c.session, c.index + 1, session, Sent)
        else c.(phase := Settled)
  }

  /** A query waits on the chain in the gate, and passes when there is none. */
  function Tried(n: nat, g: Gate): Query
  {
    match g.reapplying
    case Some(c) => Waiting(c)
    case None => Flying(g.session, Ready(n, g))
  }

  /** A statement reaches the session it was sent to, if that is still there. */
  function Landed(g: Gate, c: Chain): set<nat>
  {
    if c.sentTo == g.session then g.received + {c.index} else g.received
  }

  function Apply(n: nat, g: Gate, step: Step): Gate
    requires Enabled(g, step)
  {
    match step
    case LeaderChange => Changed(n, g)
    case Land(c) => g.(received := Landed(g, g.chains[c]), chains := g.chains[c := g.chains[c].(phase := Answered)])
    case FailAlone(c) => g.(broken := g.broken
        || g.reapplying == Some(c), chains := g.chains[c := g.chains[c].(phase := Failed)])
    case Resume(c) => g.(chains := g.chains[c := Resumed(n, g.session, g.chains[c])])
    case Clear(c) =>
      g.(reapplying := if g.reapplying == Some(c) then None
          else g.reapplying, chains := g.chains[c := g.chains[c].(phase := Ended)])
    case Arrive(q) => g.(queries := g.queries[q := Tried(n, g)])
    case Wake(q) => g.(queries := g.queries[q := Tried(n, g)])
    case Answer(q) => g.(queries := g.queries[q := Over(false)])
  }

  ghost predicate Reachable(n: nat, g: Gate, steps: nat)
    decreases steps
  {
    if steps == 0 then IsInit(n, g) else exists p, step :: Reachable(n, p, steps - 1) && Leads(n, p, step, g)
  }

  ghost predicate Leads(n: nat, p: Gate, step: Step, g: Gate)
  {
    Enabled(p, step) && g == Apply(n, p, step)
  }

  // ---- What every run keeps --------------------------------------------------------------------

  /** The chain in the gate was made for this very session, and how far it is is what the session has. */
  ghost predicate Current(n: nat, g: Gate, c: nat)
  {
    && c in g.chains && g.chains[c].session == g.session && g.chains[c].index < n
    && match g.chains[c].phase
       case Sent => Upto(g.received, g.chains[c].index)
       case Answered => Upto(g.received, g.chains[c].index + 1)
       case Failed => g.broken
       case Settled => Ready(n, g)
       case Lost => false
       case Ended => false
  }

  ghost predicate ChainsOk(g: Gate)
  {
    forall c | c in g.chains ::
      c < g.nextChain && g.chains[c].session <= g.session
          && (g.chains[c].phase == Sent ==> g.chains[c].sentTo == g.session)
  }

  ghost predicate QueriesOk(g: Gate)
  {
    forall q | q in g.queries :: match g.queries[q]
      case Waiting(c) => c in g.chains
      case Flying(session, ready) => session == g.session && ready
      case Over(_) => true
  }

  ghost predicate GateOk(n: nat, g: Gate)
  {
    match g.reapplying
    case Some(c) => Current(n, g, c)
    case None => Ready(n, g)
  }

  ghost predicate Inv(n: nat, g: Gate)
  {
    ChainsOk(g) && QueriesOk(g) && GateOk(n, g)
  }

  lemma NextInv(n: nat, g: Gate, step: Step)
    requires Inv(n, g) && Enabled(g, step)
    ensures Inv(n, Apply(n, g, step))
  {
  }

  lemma {:induction false} ReachableInv(n: nat, g: Gate, steps: nat)
    requires Reachable(n, g, steps)
    ensures Inv(n, g)
    decreases steps
  {
    if steps > 0 {
      var p, step :| Reachable(n, p, steps - 1) && Leads(n, p, step, g);
      ReachableInv(n, p, steps - 1);
      NextInv(n, p, step);
    }
  }

  /**
   Over any interleaving: a query that passes the gate goes to the present session, and that session has
   received every session statement, unless one of them failed by itself.
   */
  lemma PassesOnlyWhenReady(n: nat, g: Gate, steps: nat, step: Step, query: nat)
    requires Reachable(n, g, steps) && Enabled(g, step)
    requires query in Apply(n, g, step).queries && Apply(n, g, step).queries[query].Flying?
    requires query in g.queries ==> !g.queries[query].Flying?
    ensures step == Arrive(query) || step == Wake(query)
    ensures g.reapplying == None && Ready(n, g) && Apply(n, g, step).queries[query].session == g.session
  {
    ReachableInv(n, g, steps);
  }

  /** Only the chain made for the present session opens the gate: a chain that a later change replaced never does. */
  lemma SupersededNeverOpens(n: nat, g: Gate, steps: nat, step: Step, chain: nat)
    requires Reachable(n, g, steps) && Enabled(g, step)
    requires g.reapplying == Some(chain) && Apply(n, g, step).reapplying != Some(chain)
    ensures step == LeaderChange || (step == Clear(chain) && g.chains[chain].session == g.session && Ready(n, g))
    ensures step == LeaderChange ==> Apply(n, g, step).reapplying == Some(g.nextChain) && g.nextChain !in g.chains
  {
    ReachableInv(n, g, steps);
  }

  /**
   Over any run, whatever is still in flight was sent to the session there is now: neither a query nor a
   chain's statement, not even one of a chain that a later change replaced, waits for an answer from a
   session that is gone.
   */
  lemma InFlightIsPresent(n: nat, g: Gate, steps: nat)
    requires Reachable(n, g, steps)
    ensures forall q | q in g.queries && g.queries[q].Flying? :: g.queries[q].session == g.session && g.queries[q].ready
    ensures forall c | c in g.chains && g.chains[c].phase == Sent :: g.chains[c].sentTo == g.session
  {
    ReachableInv(n, g, steps);
  }

  /** Only a statement of the chain in the gate, the present session's, breaks that session by failing alone. */
  lemma BrokenByOwnChain(n: nat, g: Gate, steps: nat, step: Step)
    requires Reachable(n, g, steps) && Enabled(g, step) && !g.broken && Apply(n, g, step).broken
    ensures step.FailAlone? && g.reapplying == Some(step.chain) && g.chains[step.chain].session == g.session
  {
    ReachableInv(n, g, steps);
  }

  /** A query in flight ends as a failure exactly when the leader changed under it. */
  lemma FailsIffLeaderChanges(n: nat, g: Gate, step: Step, query: nat)
    requires Enabled(g, step) && query in g.queries && g.queries[query].Flying?
    ensures var after := Apply(n, g, step).queries;
      && query in after
      && (after[query] == Over(true) <==> step == LeaderChange)
      && (after[query] == Over(false) <==> step == Answer(query))
      && (step != LeaderChange && step != Answer(query) ==> after[query] == g.queries[query])
  {
  }

  // ---- The gate opens again --------------------------------------------------------------------

  /** What a chain still has to do. */
  function ToDo(n: nat, c: Chain): nat
  {
    (if c.phase == Sent || c.phase == Answered then 3 * (if c.index < n then n - c.index else 0) else 0)
    + match c.phase
      case Sent => 3
      case Answered => 2
      case Lost => 2
      case Failed => 2
      case Settled => 1
      case Ended => 0
  }

  predicate IsOf(step: Step, c: nat)
  {
    step == Land(c) || step == FailAlone(c) || step == Resume(c) || step == Clear(c)
  }

  /** A closed gate's chain has a step to take. */
  lemma GateCanOpen(n: nat, g: Gate, steps: nat, chain: nat)
    requires Reachable(n, g, steps) && g.reapplying == Some(chain)
    ensures chain in g.chains && ToDo(n, g.chains[chain]) > 0
    ensures exists step :: IsOf(step, chain) && Enabled(g, step)
  {
    ReachableInv(n, g, steps);
    var step :=
      match g.chains[chain].phase
      case Sent => Land(chain)
      case Settled => Clear(chain)
      case _ => Resume(chain);
    assert IsOf(step, chain) && Enabled(g, step);
  }

  /** Each of its steps leaves it less to do, and no other step but a new leader change touches it. */
  lemma GateGetsCloser(n: nat, g: Gate, steps: nat, chain: nat, step: Step)
    requires Reachable(n, g, steps) && g.reapplying == Some(chain) && Enabled(g, step) && step != LeaderChange
    ensures chain in g.chains && chain in Apply(n, g, step).chains
    ensures IsOf(step, chain) ==> ToDo(n, Apply(n, g, step).chains[chain]) < ToDo(n, g.chains[chain])
    ensures !IsOf(step, chain) ==>
        Apply(n, g, step).chains[chain] == g.chains[chain]
        && Apply(n, g, step).reapplying == Some(chain)
  {
    ReachableInv(n, g, steps);
  }

  /** The chain takes a step. */
  ghost predicate ChainMoves(n: nat, g: Gate, next: Gate, chain: nat)
  {
    exists step :: IsOf(step, chain) && Leads(n, g, step, next)
  }

  ghost function MovesOf(n: nat, chain: nat): (Gate, Gate) -> bool
  {
    (g, next) => ChainMoves(n, g, next, chain)
  }

  /** What the chain's own steps leave alone: the session, every query, and any other chain in the gate. */
  ghost predicate OnlyChainMoved(g: Gate, g': Gate, chain: nat)
  {
    && chain in g'.chains && g'.session == g.session && g'.queries == g.queries
    && (g'.reapplying == g.reapplying || (g.reapplying == Some(chain) && g'.reapplying == None))
  }

  /** And the gate is held by this chain only while the chain has not ended. */
  ghost predicate Ending(n: nat, first: Gate, g: Gate, chain: nat)
  {
    Inv(n, g) && OnlyChainMoved(first, g, chain)
  }

  lemma ChainCanMove(n: nat, first: Gate, g: Gate, chain: nat)
    requires Ending(n, first, g, chain) && g.chains[chain].phase != Ended
    ensures exists next ::
      ChainMoves(n, g, next, chain) && Ending(n, first, next, chain)
      && ToDo(n, next.chains[chain]) < ToDo(n, g.chains[chain])
  {
    var step :=
      match g.chains[chain].phase
      case Sent => Land(chain)
      case Settled => Clear(chain)
      case _ => Resume(chain);
    var next := Apply(n, g, step);
    NextInv(n, g, step);
    assert IsOf(step, chain) && Leads(n, g, step, next);
    assert ChainMoves(n, g, next, chain) && Ending(n, first, next, chain);
  }

  /**
   No query waits for ever on a chain: whatever chain it waits for, superseded or not, that chain's own steps,
   no more of them than it has left to do, lead to a state in which the query can try again. If it was the
   chain in the gate, they have opened it.
   */
  lemma WaitersWake(n: nat, g: Gate, steps: nat, query: nat) returns (g': Gate, m: nat)
    requires Reachable(n, g, steps) && query in g.queries && g.queries[query].Waiting?
    ensures var chain := g.queries[query].chain;
      && chain in g.chains && LeadsTo(g, MovesOf(n, chain), g', m) && m <= ToDo(n, g.chains[chain])
      && OnlyChainMoved(g, g', chain) && g'.reapplying != Some(chain)
    ensures Enabled(g', Wake(query))
  {
    ReachableInv(n, g, steps);
    var chain := g.queries[query].chain;
    var good, goal := (x: Gate) => Ending(n, g, x, chain), (x: Gate) => InPhase(x, chain, Ended);
    var work: Gate -> nat := (x: Gate) => if chain in x.chains then ToDo(n, x.chains[chain]) else 0;
    forall p | good(p) && !goal(p) ensures exists q :: MovesOf(n, chain)(p, q) && good(q) && work(q) < work(p) {
      ChainCanMove(n, g, p, chain);
      var q :| ChainMoves(n, p, q, chain) && Ending(n, g, q, chain)
        && ToDo(n, q.chains[chain]) < ToDo(n, p.chains[chain]);
      assert MovesOf(n, chain)(p, q) && good(q) && work(q) < work(p);
    }
    g', m := GoalReached(MovesOf(n, chain), good, goal, work, g);
  }

  // ---- The adapter -----------------------------------------------------------------------------

  /** The adapter's closure, and the session behind it. */
  class Adapter {
    const n: nat
    var session: nat
    var received: set<nat>
    var broken: bool
    var reapplying: Option<nat>
    var chains: map<nat, Chain>
    var queries: map<nat, Query>
    var nextChain: nat

    function Value(): Gate
      reads this
    {
      Gate(session, received, broken, reapplying, chains, queries, nextChain)
    }

    ghost predicate Valid()
      reads this
    {
      Inv(n, Value())
    }

    constructor (n: nat, received: set<nat>)
      requires Upto(received, n)
      ensures Valid() && this.n == n && Value() == Gate(0, received, false, None, map[], map[], 0)
    {
      this.n, session, this.received, broken := n, 0, received, false;
      reapplying, chains, queries, nextChain := None, map[], map[], 0;
    }

    /** `for (const fail of [...inFlight]) fail(...)` */
    method FailInFlight()
      modifies this`chains, this`queries
      ensures Value() == old(Value()).(
        chains := map c | c in old(chains) :: LoseChain(old(chains)[c]),
        queries := map q | q in old(queries) :: LoseQuery(old(queries)[q]))
    {
      var sent := set c | c in chains && chains[c].phase == Sent;
      while sent != {}
        modifies this`chains
        invariant chains.Keys == old(chains).Keys && sent <= chains.Keys
        invariant forall c | c in chains :: chains[c] == if c in sent then old(chains)[c] else LoseChain(old(chains)[c])
        decreases sent
      {
        var c :| c in sent;
        chains := chains[c := chains[c].(phase := Lost)];
        sent := sent - {c};
      }
      var flying := set q | q in queries && queries[q].Flying?;
      while flying != {}
        modifies this`queries
        invariant queries.Keys == old(queries).Keys && flying <= queries.Keys
        invariant forall q | q in queries :: queries[q] == if q in flying then old(queries)[q]
            else LoseQuery(old(queries)[q])
        decreases flying
      {
        var q :| q in flying;
        queries := queries[q := Over(true)];
        flying := flying - {q};
      }
    }

    /** The callback of `onLeaderChange`, at the moment the new session begins. */
    method OnLeaderChange()
      requires Valid()
      modifies this
      ensures Valid() && Value() == Apply(n, old(Value()), LeaderChange)
    {
      ghost var before := Value();
      NextInv(n, before, LeaderChange);
      session, received, broken := session + 1, {}, false;
      FailInFlight();
      assert Value() == AllLost(before);
      if n == 0 {
        return;
      }
      chains := chains[nextChain := Chain(session, 0, session, Sent)];
      reapplying := Some(nextChain);
      nextChain := nextChain + 1;
    }

    /** `if (reapplying === chain) reapplying = null` */
    method ClearGate(chain: nat)
      requires Valid() && InPhase(Value(), chain, Settled)
      modifies this`reapplying, this`chains
      ensures Valid() && Value() == Apply(n, old(Value()), Clear(chain))
      ensures old(reapplying).Some? && reapplying == None ==> Ready(n, Value()) && chains[chain].session == session
    {
      NextInv(n, Value(), Clear(chain));
      if reapplying == Some(chain) {
        reapplying := None;
      }
      chains := chains[chain := chains[chain].(phase := Ended)];
    }

    /** The check of `executeSql`, on arrival and whenever what it awaited has settled. */
    method TryQuery(query: nat) returns (passed: bool)
      requires Valid() && (Enabled(Value(), Arrive(query)) || Enabled(Value(), Wake(query)))
      modifies this`queries
      ensures Valid() && Value() == Apply(n, old(Value()), if query in old(queries) then Wake(query) else Arrive(query))
      ensures passed <==> queries[query].Flying?
      ensures passed ==> queries[query].session == session && Ready(n, Value())
    {
      NextInv(n, Value(), if query in queries then Wake(query) else Arrive(query));
      passed := reapplying == None;
      if passed {
        queries := queries[query := Flying(session, Ready(n, Value()))];
      } else {
        queries := queries[query := Waiting(reapplying.value)];
      }
    }
  }
}
