/**
 The instants a schedule's expression names, in milliseconds, and the two reads a cron pass makes of
 them. An expression is an arbitrary set of instants: what cron-parser and rrule-temporal compute is
 a parameter here.
 */
module Occurrences {
  import opened Options

  type Instants = int -> bool

  /** `t` is the latest instant in `(after, until]`. */
  ghost predicate IsLatest(instants: Instants, after: int, until: int, t: int)
  {
    && after < t <= until && instants(t)
    && forall u | t < u <= until :: !instants(u)
  }

  ghost predicate IsEmpty(instants: Instants, after: int, until: int)
  {
    forall u | after < u <= until :: !instants(u)
  }

  /** What a read of `(after, until]` for its latest instant answers. */
  ghost predicate IsLatestRead(instants: Instants, after: int, until: int, r: Option<int>)
  {
    match r
    case Some(t) => IsLatest(instants, after, until, t)
    case None => IsEmpty(instants, after, until)
  }

  /** Reading backwards from `until`, one instant: cron-parser's `prev()`, given up at `after`. */
  function LatestBefore(instants: Instants, after: int, until: int): (r: Option<int>)
    ensures IsLatestRead(instants, after, until, r)
    decreases until - after
  {
    if until <= after then None
    else if instants(until) then Some(until)
    else LatestBefore(instants, after, until - 1)
  }

  ghost predicate IsWindowRead(instants: Instants, after: int, until: int, r: seq<int>)
  {
    && (forall i | 0 <= i < |r| :: after < r[i] <= until && instants(r[i]))
    && (forall i, j | 0 <= i < j < |r| :: r[i] < r[j])
    && forall u | after < u <= until && instants(u) :: u in r
  }

  /** Every instant in `(after, until]`, in order: rrule-temporal's `between()` with its upper bound nudged. */
  function InWindow(instants: Instants, after: int, until: int): (r: seq<int>)
    ensures IsWindowRead(instants, after, until, r)
    decreases until - after
  {
    if until <= after then []
    else
      var earlier := InWindow(instants, after, until - 1);
      if instants(until) then earlier + [until] else earlier
  }

  /** The last element of a window read is its latest instant. */
  lemma LastOfWindow(instants: Instants, after: int, until: int, r: seq<int>)
    requires IsWindowRead(instants, after, until, r)
    ensures IsLatestRead(instants, after, until, if r == [] then None else Some(r[|r| - 1]))
  {
    if r != [] {
      assert forall u | u in r :: u <= r[|r| - 1];
      assert forall u | after < u <= until && instants(u) :: u in r;
    }
  }
}
