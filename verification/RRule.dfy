/**
 The catch-up read of a recurrence rule (`latestOccurrenceBefore` in src/rrule.ts): a search
 backwards from `until` in steps that widen while they come back empty and narrow when the rule
 library refuses a range for holding more occurrences than it will generate.
 */
module RRule {
  import opened Arithmetic
  import opened Options
  import opened Occurrences

  const FLOOR: nat := 60 * 60 * 1000
  const GROWTH: nat := 4

  /** A rule read through a library that refuses some ranges. */
  datatype Rule = Rule(instants: Instants, refuses: (int, int) -> bool)

  datatype Answer = Refused(lower: int, upper: int) | Read(latest: Option<int>)

  /** How wide the read after `n` empty ones is when none was refused: FLOOR times four to the `n`. */
  ghost function Width(n: nat): nat
  {
    if n == 0 then FLOOR else GROWTH * Width(n - 1)
  }

  /** How much of the range those `n` reads have covered. */
  ghost function Covered(n: nat): nat
  {
    if n == 0 then 0 else Covered(n - 1) + Width(n - 1)
  }

  /** The reads grow geometrically, so their number is logarithmic in what they cover. */
  lemma {:induction false} CoveredIsGeometric(n: nat)
    ensures (GROWTH - 1) * Covered(n) == Width(n) - FLOOR
  {
    if n > 0 {
      CoveredIsGeometric(n - 1);
    }
  }

  /** One `between()` call: every occurrence in `(lower, upper]`, or a refusal. */
  method Between(rule: Rule, lower: int, upper: int) returns (r: Option<seq<int>>)
    ensures r == None <==> rule.refuses(lower, upper)
    ensures r.Some? ==> IsWindowRead(rule.instants, lower, upper, r.value)
  {
    r := if rule.refuses(lower, upper) then None else Some(InWindow(rule.instants, lower, upper));
  }

  /**
   The latest occurrence of `rule` in `(after, until]`. The library may refuse any range it likes;
   the search gives up only on one no wider than FLOOR, and on nothing else. `count` counts the
   ranges read, which without refusals is logarithmic in the range.
   */
  method LatestOccurrenceBefore(rule: Rule, after: int, until: int) returns (r: Answer, count: nat)
    ensures r.Read? ==> IsLatestRead(rule.instants, after, until, r.latest)
    ensures r.Refused? ==>
        after <= r.lower < r.upper <= until && r.upper - r.lower <= FLOOR
        && rule.refuses(r.lower, r.upper)
    ensures (forall l, u :: u - l <= FLOOR ==> !rule.refuses(l, u)) ==> r.Read?
    ensures (forall l, u :: !rule.refuses(l, u)) ==> count <= 1 || Width(count - 1) < 3 * (until - after) + FLOOR
  {
    ghost var smooth := forall l, u :: !rule.refuses(l, u);
    var upper := until;
    var width := FLOOR;
    var ceiling: Option<int> := None;
    count := 0;
    while upper > after
      invariant upper <= until && (upper >= after || upper == until)
      invariant FLOOR <= width && (ceiling.Some? ==> width <= ceiling.value)
      invariant IsEmpty(rule.instants, upper, until)
      invariant smooth ==> ceiling == None && width == Width(count)
      invariant smooth ==> EmptyReadsCovered(count, after, until, upper)
      decreases upper - after, width
    {
      ghost var risen := ceiling;
      var lower := Max(after, upper - width);
      count := count + 1;
      var step := Between(rule, lower, upper);
      if step == None {
        if upper - lower <= FLOOR {
          return Refused(lower, upper), count;
        }
        ceiling := Some(Max(FLOOR, (upper - lower) / 2));
        width := ceiling.value;
        assert risen.Some? ==> ceiling.value <= risen.value;
      } else {
        LastOfWindow(rule.instants, lower, upper, step.value);
        if |step.value| > 0 {
          if smooth {
            CountBounded(count - 1, after, until, upper);
          }
          return Read(Some(step.value[|step.value| - 1])), count;
        }
        if smooth {
          EmptyReadNext(count - 1, after, until, upper);
        }
        upper := lower;
        width := if ceiling.Some? then Min(width * GROWTH, ceiling.value) else width * GROWTH;
      }
    }
    if smooth {
      AllCovered(count, after, until, upper);
    }
    return Read(None), count;
  }

  /** After `n` empty reads the search stands where they reach, or at the range's lower bound. */
  ghost predicate EmptyReadsCovered(n: nat, after: int, until: int, upper: int)
  {
    upper == until - Covered(n) || (n > 0 && upper == after && Covered(n - 1) < until - after)
  }

  lemma EmptyReadNext(n: nat, after: int, until: int, upper: int)
    requires EmptyReadsCovered(n, after, until, upper) && after < upper <= until
    ensures EmptyReadsCovered(n + 1, after, until, Max(after, upper - Width(n)))
  {
  }

  /** One more read after `n` empty ones that have not covered the range. */
  lemma CountBounded(n: nat, after: int, until: int, upper: int)
    requires EmptyReadsCovered(n, after, until, upper) && after < upper
    ensures Width(n) < 3 * (until - after) + FLOOR
  {
    CoveredIsGeometric(n);
  }

  lemma AllCovered(n: nat, after: int, until: int, upper: int)
    requires EmptyReadsCovered(n, after, until, upper) && (upper == after || upper == until <= after)
    ensures n <= 1 || Width(n - 1) < 3 * (until - after) + FLOOR
  {
    if n > 0 {
      CoveredIsGeometric(n - 1);
    }
  }
}
