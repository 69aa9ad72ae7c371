/** Runs of a state machine, whose steps are given as a relation between a state and the next. */
module Runs {
  /** `n` steps lead from `first` to `s`. */
  ghost predicate LeadsTo<S(!new)>(first: S, follows: (S, S) -> bool, s: S, n: nat)
    decreases n
  {
    if n == 0 then s == first else exists p :: LeadsTo(first, follows, p, n - 1) && follows(p, s)
  }

  lemma OneStepMore<S(!new)>(first: S, follows: (S, S) -> bool, p: S, s: S, n: nat)
    requires LeadsTo(first, follows, p, n) && follows(p, s)
    ensures LeadsTo(first, follows, s, n + 1)
  {
  }

  /** What holds at first, and of whatever follows a state it holds of, holds over every run. */
  lemma {:induction false} Induction<S(!new)>(first: S, follows: (S, S) -> bool, inv: S -> bool, s: S, n: nat)
    requires inv(first) && (forall p, q | inv(p) && follows(p, q) :: inv(q)) && LeadsTo(first, follows, s, n)
    ensures inv(s)
    decreases n
  {
    if n > 0 {
      var p :| LeadsTo(first, follows, p, n - 1) && follows(p, s);
      Induction(first, follows, inv, p, n - 1);
    }
  }

  lemma {:induction false} OneStepFirst<S(!new)>(first: S, follows: (S, S) -> bool, second: S, s: S, n: nat)
    requires follows(first, second) && LeadsTo(second, follows, s, n)
    ensures LeadsTo(first, follows, s, n + 1)
    decreases n
  {
    if n == 0 {
      assert LeadsTo(first, follows, first, 0);
    } else {
      var p :| LeadsTo(second, follows, p, n - 1) && follows(p, s);
      OneStepFirst(first, follows, second, p, n - 1);
    }
  }

  /**
   If from every good state that is not at the goal some step leads to another good one with less work left,
   then some run leads to the goal, in no more steps than there is work.
   */
  lemma {:induction false} GoalReached<S(!new)>(follows: (S, S) -> bool, good: S -> bool, goal: S -> bool,
      work: S -> nat, s: S)
    returns (s': S, n: nat)
    requires good(s)
    requires forall p | good(p) && !goal(p) :: exists q :: follows(p, q) && good(q) && work(q) < work(p)
    ensures LeadsTo(s, follows, s', n) && n <= work(s) && good(s') && goal(s')
    decreases work(s)
  {
    if goal(s) {
      s', n := s, 0;
    } else {
      var q :| follows(s, q) && good(q) && work(q) < work(s);
      var rest;
      s', rest := GoalReached(follows, good, goal, work, q);
      OneStepFirst(s, follows, q, s', rest);
      n := rest + 1;
    }
  }
}
