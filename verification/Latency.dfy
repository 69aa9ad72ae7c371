/**
 Wait and run histograms (src/latency.ts): merging two of them and reading a percentile off one.

 A percentile in seconds is LATENCY_MIN_SECONDS times the square root of two to some exponent. The
 exponent is what the walk over the bins decides, and a larger exponent is a longer time, so the
 model works on the exponent, over the reals.
 */
module Latency {
  import opened Options

  /** Why `percentile` has no number to answer with, or the exponent of the one it has. */
  datatype Reading = BadPercent | NoJobs | At(exponent: real)

  /** The jobs counted in the first `k` slots. */
  function Cumulative(bins: seq<nat>, k: nat): nat
    requires k <= |bins|
  {
    if k == 0 then 0 else Cumulative(bins, k - 1) + bins[k - 1]
  }

  function Total(bins: seq<nat>): nat
  {
    Cumulative(bins, |bins|)
  }

  function AddBins(a: Option<seq<nat>>, b: Option<seq<nat>>): (r: Option<seq<nat>>)
    ensures a == None ==> r == b
    ensures b == None ==> r == a
  {
    match (a, b)
    case (_, None) => a
    case (None, _) => b
    case (Some(x), Some(y)) => Some(seq(|x|, i requires 0 <= i < |x| => x[i] + if i < |y| then y[i] else 0))
  }

  /**
   How many jobs lie at or below exponent `y`, reading a histogram as a distribution: slot 0 sits at
   exponent 0, slot `k` is spread evenly over `k - 1 .. k`, and the last slot, which has no upper
   edge, sits at its lower one. Independent of the walk `Percentile` takes.
   */
  ghost function Below(bins: seq<nat>, y: real): real
    requires |bins| > 0 && y >= 0.0
  {
    if y >= (|bins| - 2) as real then Total(bins) as real
    else
      var k := y.Floor + 1;
      Cumulative(bins, k) as real + Share(y - (k - 1) as real, bins[k])
  }

  /** How many of a slot's jobs lie in a part of it. */
  ghost function Share(part: real, jobs: nat): real
  {
    part * jobs as real
  }

  /** How many jobs `p` percent of the histogram are. */
  function Target(bins: seq<nat>, p: real): real
  {
    p / 100.0 * Total(bins) as real
  }

  /** `x` is the least exponent with at least `target` jobs at or below it. */
  ghost predicate Reaches(bins: seq<nat>, target: real, x: real)
    requires |bins| > 0
  {
    && x >= 0.0
    && forall y: real :: y >= 0.0 ==> (x <= y <==> Below(bins, y) >= target)
  }

  ghost predicate IsPercentile(bins: seq<nat>, p: real, x: real)
    requires |bins| > 0
  {
    Reaches(bins, Target(bins, p), x)
  }

  lemma {:induction false} CumulativeMonotone(bins: seq<nat>, j: nat, k: nat)
    requires j <= k <= |bins|
    ensures Cumulative(bins, j) <= Cumulative(bins, k)
    decreases k
  {
    if j < k {
      CumulativeMonotone(bins, j, k - 1);
    }
  }

  lemma PartOf(part: real, n: real)
    requires 0.0 <= part <= 1.0 && n >= 0.0
    ensures 0.0 <= part * n <= n
  {
    assert (1.0 - part) * n >= 0.0;
  }

  lemma ShareWithin(part: real, jobs: nat)
    requires 0.0 <= part <= 1.0
    ensures 0.0 <= Share(part, jobs) <= jobs as real
  {
    PartOf(part, jobs as real);
  }

  lemma ShareOf(rest: real, n: real)
    requires 0.0 < rest <= n
    ensures 0.0 < rest / n <= 1.0 && rest / n * n == rest
  {
    var share := rest / n;
    assert share * n == rest;
    assert (1.0 - share) * n == n - rest;
    SignOfFactor(1.0 - share, n);
  }

  lemma SignOfFactor(f: real, n: real)
    requires n > 0.0 && f * n >= 0.0
    ensures f >= 0.0
  {
  }

  lemma ScaledLess(u: real, v: real, n: real)
    requires u < v && n > 0.0
    ensures u * n < v * n
  {
    assert (v - u) * n > 0.0;
  }

  /** Inside slot `k` the count runs from the slots before it to the slots up to and including it. */
  lemma BelowWithinSlot(bins: seq<nat>, y: real)
    requires |bins| > 0 && 0.0 <= y < (|bins| - 2) as real
    ensures Cumulative(bins, y.Floor + 1) as real <= Below(bins, y) <= Cumulative(bins, y.Floor + 2) as real
  {
    var k := y.Floor + 1;
    assert Cumulative(bins, k + 1) == Cumulative(bins, k) + bins[k];
    ShareWithin(y - (k - 1) as real, bins[k]);
  }

  lemma BelowMonotone(bins: seq<nat>, y: real, z: real)
    requires |bins| > 0 && 0.0 <= y <= z
    ensures Below(bins, y) <= Below(bins, z)
  {
    if y < (|bins| - 2) as real {
      BelowWithinSlot(bins, y);
      if z >= (|bins| - 2) as real {
        CumulativeMonotone(bins, y.Floor + 2, |bins|);
      } else {
        BelowWithinSlot(bins, z);
        if y.Floor == z.Floor {
          var k := y.Floor + 1;
          PartOfTotal(z - y, bins[k] as real);
          Distribute(bins[k] as real, y - (k - 1) as real, z - y);
        } else {
          CumulativeMonotone(bins, y.Floor + 2, z.Floor + 1);
        }
      }
    }
  }

  /** Nothing below the lower edge of slot `k` reaches a target the earlier slots fall short of. */
  lemma BelowEarlierSlots(bins: seq<nat>, k: nat, y: real)
    requires 0 < k < |bins| && 0.0 <= y < (k - 1) as real
    ensures Below(bins, y) <= Cumulative(bins, k) as real
  {
    BelowWithinSlot(bins, y);
    CumulativeMonotone(bins, y.Floor + 2, k);
  }

  /** The three places the walk can stop, each giving the least exponent that reaches the target. */
  lemma StopInFirstSlot(bins: seq<nat>, target: real)
    requires |bins| > 0 && target <= Total(bins) as real
    requires |bins| == 1 || bins[0] as real >= target
    ensures Reaches(bins, target, 0.0)
  {
    assert Cumulative(bins, 1) == bins[0];
    forall y: real | y >= 0.0 ensures Below(bins, y) >= target {
      BelowMonotone(bins, 0.0, y);
    }
  }

  lemma StopInLastSlot(bins: seq<nat>, target: real)
    requires |bins| > 1
    requires Cumulative(bins, |bins| - 1) as real < target <= Total(bins) as real
    ensures Reaches(bins, target, (|bins| - 2) as real)
  {
    forall y: real | 0.0 <= y < (|bins| - 2) as real ensures Below(bins, y) < target {
      BelowEarlierSlots(bins, |bins| - 1, y);
    }
  }

  lemma StopInMiddleSlot(bins: seq<nat>, target: real, k: nat, x: real)
    requires 0 < k < |bins| - 1 && bins[k] > 0
    requires Cumulative(bins, k) as real < target <= Cumulative(bins, k + 1) as real
    requires x == (k - 1) as real + (target - Cumulative(bins, k) as real) / bins[k] as real
    ensures (k - 1) as real < x <= k as real
    ensures Reaches(bins, target, x)
  {
    assert Cumulative(bins, k + 1) == Cumulative(bins, k) + bins[k];
    var rest := target - Cumulative(bins, k) as real;
    MiddlePart(k, rest, bins[k], rest / bins[k] as real, x);
    StopPartWay(bins, target, k, x, rest / bins[k] as real);
  }

  lemma StopPartWay(bins: seq<nat>, target: real, k: nat, x: real, share: real)
    requires 0 < k < |bins| - 1 && bins[k] > 0 && 0.0 < share <= 1.0 && x == (k - 1) as real + share
    requires target == Cumulative(bins, k) as real + Share(share, bins[k])
    ensures Reaches(bins, target, x)
  {
    MiddleReachesTarget(bins, k, x, target);
    forall y: real | y >= 0.0 ensures x <= y <==> Below(bins, y) >= target {
      if x <= y {
        BelowMonotone(bins, x, y);
      } else {
        BeforeMiddle(bins, k, share, y);
      }
    }
  }

  lemma BeforeMiddle(bins: seq<nat>, k: nat, share: real, y: real)
    requires 0 < k < |bins| - 1 && bins[k] > 0 && 0.0 < share <= 1.0
    requires 0.0 <= y < (k - 1) as real + share
    ensures Below(bins, y) < Cumulative(bins, k) as real + Share(share, bins[k])
  {
    if y < (k - 1) as real {
      BelowEarlierSlots(bins, k, y);
      ScaledLess(0.0, share, bins[k] as real);
    } else {
      MiddleFallsShort(bins, k, y, share);
    }
  }

  lemma MiddlePart(k: nat, rest: real, jobs: nat, share: real, x: real)
    requires 0.0 < rest <= jobs as real && share == rest / jobs as real && x == (k - 1) as real + share
    ensures 0.0 < share <= 1.0 && Share(share, jobs) == rest
  {
    ShareOf(rest, jobs as real);
  }

  lemma MiddleReachesTarget(bins: seq<nat>, k: nat, x: real, target: real)
    requires 0 < k < |bins| - 1
    requires (k - 1) as real < x <= k as real
    requires Share(x - (k - 1) as real, bins[k]) == target - Cumulative(bins, k) as real
    ensures Below(bins, x) >= target
  {
    if x == k as real {
      assert Cumulative(bins, k + 1) == Cumulative(bins, k) + bins[k];
      assert target == Cumulative(bins, k + 1) as real;
      assert x.Floor == k;
      CumulativeMonotone(bins, k + 1, |bins|);
    } else {
      assert x.Floor == k - 1;
    }
  }

  lemma MiddleFallsShort(bins: seq<nat>, k: nat, y: real, share: real)
    requires 0 < k < |bins| - 1 && bins[k] > 0
    requires (k - 1) as real <= y < (k - 1) as real + share && share <= 1.0
    ensures Below(bins, y) < Cumulative(bins, k) as real + Share(share, bins[k])
  {
    assert y.Floor == k - 1;
    assert Below(bins, y) == Cumulative(bins, k) as real + Share(y - (k - 1) as real, bins[k]);
    ScaledLess(y - (k - 1) as real, share, bins[k] as real);
  }

  lemma TargetWithinTotal(bins: seq<nat>, p: real)
    requires 1.0 <= p <= 100.0
    ensures Target(bins, p) <= Total(bins) as real
    ensures Total(bins) > 0 ==> 0.0 < Target(bins, p)
  {
    PartOf(p / 100.0, Total(bins) as real);
    if Total(bins) > 0 {
      ScaledLess(0.0, p / 100.0, Total(bins) as real);
    }
  }

  /** The walk of `percentile`: to the slot holding the target job, then a share of that slot. */
  method Percentile(histogram: Option<seq<nat>>, p: real) returns (r: Reading)
    ensures r == BadPercent <==> !(1.0 <= p <= 100.0)
    ensures r == NoJobs <==> 1.0 <= p <= 100.0 && (histogram == None || Total(histogram.value) == 0)
    ensures r.At? ==> |histogram.value| > 0 && IsPercentile(histogram.value, p, r.exponent)
  {
    if !(1.0 <= p <= 100.0) {
      return BadPercent;
    }
    if histogram == None {
      return NoJobs;
    }
    var bins := histogram.value;
    if Total(bins) == 0 {
      return NoJobs;
    }
    var target := Target(bins, p);
    TargetWithinTotal(bins, p);
    var k, seen := 0, 0;
    while k < |bins| - 1 && !(bins[k] > 0 && (seen + bins[k]) as real >= target)
      invariant 0 <= k <= |bins| - 1
      invariant seen == Cumulative(bins, k)
      invariant seen as real < target
    {
      seen := seen + bins[k];
      k := k + 1;
    }
    if k == 0 {
      StopInFirstSlot(bins, target);
      return At(0.0);
    }
    if k == |bins| - 1 {
      StopInLastSlot(bins, target);
      return At((k - 1) as real);
    }
    var exponent := (k - 1) as real + (target - seen as real) / bins[k] as real;
    StopInMiddleSlot(bins, target, k, exponent);
    r := At(exponent);
  }

  /** Only one exponent reaches a target first, so `IsPercentile` pins the answer down. */
  lemma ReachesUnique(bins: seq<nat>, target: real, x: real, y: real)
    requires |bins| > 0 && Reaches(bins, target, x) && Reaches(bins, target, y)
    ensures x == y
  {
    assert x <= x && Below(bins, x) >= target;
    assert y <= y && Below(bins, y) >= target;
  }

  /** The percentile lies within the edges of the slot the target job is in. */
  lemma PercentileWithinSlot(bins: seq<nat>, p: real, k: nat, x: real)
    requires 0 < k < |bins| - 1 && IsPercentile(bins, p, x)
    requires Cumulative(bins, k) as real < Target(bins, p) <= Cumulative(bins, k + 1) as real
    ensures (k - 1) as real < x <= k as real
  {
    var target := Target(bins, p);
    var exponent := (k - 1) as real + (target - Cumulative(bins, k) as real) / bins[k] as real;
    StopInMiddleSlot(bins, target, k, exponent);
    ReachesUnique(bins, target, x, exponent);
  }

  /** It is the least exponent with `p` percent of all the jobs at or below it. */
  lemma PercentileShare(bins: seq<nat>, p: real, x: real, y: real)
    requires |bins| > 0 && IsPercentile(bins, p, x) && y >= 0.0
    ensures x <= y <==> 100.0 * Below(bins, y) >= p * (Total(bins) as real)
  {
    assert 100.0 * Target(bins, p) == p * (Total(bins) as real);
  }

  /** A higher percent is never a shorter time. */
  lemma PercentileMonotone(bins: seq<nat>, p: real, q: real, x: real, y: real)
    requires |bins| > 0 && p <= q
    requires IsPercentile(bins, p, x) && IsPercentile(bins, q, y)
    ensures x <= y
  {
    assert Target(bins, p) <= Target(bins, q) by {
      PartOfTotal(q / 100.0 - p / 100.0, Total(bins) as real);
      Distribute(Total(bins) as real, p / 100.0, q / 100.0 - p / 100.0);
    }
    assert y <= y && Below(bins, y) >= Target(bins, q);
  }

  lemma PartOfTotal(part: real, n: real)
    requires part >= 0.0 && n >= 0.0
    ensures part * n >= 0.0
  {
  }

  lemma {:induction false} CumulativeMerged(a: seq<nat>, b: seq<nat>, k: nat)
    requires |a| == |b| && k <= |a|
    ensures var m := AddBins(Some(a), Some(b)).value;
      |m| == |a| && Cumulative(m, k) == Cumulative(a, k) + Cumulative(b, k)
  {
    if k > 0 {
      CumulativeMerged(a, b, k - 1);
    }
  }

  /** Merging adds the two distributions, whatever exponent they are read at. */
  lemma BelowMerged(a: seq<nat>, b: seq<nat>, y: real)
    requires |a| == |b| > 0 && y >= 0.0
    ensures var m := AddBins(Some(a), Some(b)).value;
      |m| == |a| && Below(m, y) == Below(a, y) + Below(b, y)
  {
    var m := AddBins(Some(a), Some(b)).value;
    CumulativeMerged(a, b, |a|);
    if y < (|a| - 2) as real {
      var k := y.Floor + 1;
      CumulativeMerged(a, b, k);
      Distribute(y - (k - 1) as real, a[k] as real, b[k] as real);
    }
  }

  /** The percentile of a merged histogram lies between the percentiles of the two it was merged from. */
  lemma MergedPercentileBracketed(a: seq<nat>, b: seq<nat>, p: real, xa: real, xb: real, x: real)
    requires |a| == |b| > 0
    requires IsPercentile(a, p, xa) && IsPercentile(b, p, xb)
    requires |AddBins(Some(a), Some(b)).value| > 0 && IsPercentile(AddBins(Some(a), Some(b)).value, p, x)
    ensures xa <= x <= xb || xb <= x <= xa
  {
    if xa <= xb {
      BracketedOrdered(a, b, p, xa, xb, x);
    } else {
      assert AddBins(Some(a), Some(b)).value == AddBins(Some(b), Some(a)).value;
      BracketedOrdered(b, a, p, xb, xa, x);
    }
  }

  lemma BracketedOrdered(a: seq<nat>, b: seq<nat>, p: real, xa: real, xb: real, x: real)
    requires |a| == |b| > 0
    requires IsPercentile(a, p, xa) && IsPercentile(b, p, xb) && xa <= xb
    requires |AddBins(Some(a), Some(b)).value| > 0 && IsPercentile(AddBins(Some(a), Some(b)).value, p, x)
    ensures xa <= x <= xb
  {
    var m := AddBins(Some(a), Some(b)).value;
    MergedTarget(a, b, p);
    BracketedTargets(a, b, m, Target(a, p), Target(b, p), xa, xb, x);
  }

  lemma BracketedTargets(a: seq<nat>, b: seq<nat>, m: seq<nat>, ta: real, tb: real, xa: real, xb: real, x: real)
    requires |a| == |b| > 0 && Some(m) == AddBins(Some(a), Some(b)) && |m| > 0
    requires Reaches(a, ta, xa) && Reaches(b, tb, xb) && Reaches(m, ta + tb, x) && xa <= xb
    ensures xa <= x <= xb
  {
    BelowMerged(a, b, xb);
    assert Below(a, xb) >= ta;
    assert xb <= xb && Below(b, xb) >= tb;
    BelowMerged(a, b, x);
    assert x <= x && Below(m, x) >= ta + tb;
  }

  lemma MergedTarget(a: seq<nat>, b: seq<nat>, p: real)
    requires |a| == |b|
    ensures Target(AddBins(Some(a), Some(b)).value, p) == Target(a, p) + Target(b, p)
  {
    CumulativeMerged(a, b, |a|);
    Distribute(p / 100.0, Total(a) as real, Total(b) as real);
  }

  lemma Distribute(part: real, u: real, v: real)
    ensures part * (u + v) == part * u + part * v
  {
  }
}
