/**
  The expanding-threshold matcher (class Matcher of observable/src/matching.js).
  Pass k compares the record with every theoretical point under the threshold
  `k * thresholdStep` (the source accumulates the sum in floating point); the
  first point in list order whose BAF and DR both lie within the threshold is
  taken, and the search stops after the first pass whose taken point has a
  non-zero total.
 */
module Matching {
  import opened JsValues
  import opened Sequences
  import opened TheoreticalDistribution

  /** `{...record, total, minor}`: a new record, the input's fields plus the genotype. */
  datatype MatchedRow = MatchedRow(record: DataRow, total: nat, minor: nat)

  /** `Math.abs(v - target) <= t`, which is false when `v` is NaN. */
  predicate Near(v: Num, target: real, t: real)
  {
    v.Num? && Abs(v.value - target) <= t
  }

  /** The box test on both axes (not a Euclidean distance). */
  predicate InBox(p: Point, baf: Num, dr: Num, t: real)
  {
    Near(baf, p.baf, t) && Near(dr, p.dr, t)
  }

  /** The index the inner `for ... break` stops at: the first point in the box, if any. */
  function FirstInBox(dist: seq<Point>, baf: Num, dr: Num, t: real): (r: Option<nat>)
    ensures r.Some? ==> r.value < |dist| && InBox(dist[r.value], baf, dr, t)
    ensures r.Some? ==> forall j :: 0 <= j < r.value ==> !InBox(dist[j], baf, dr, t)
    ensures r.None? ==> forall j :: 0 <= j < |dist| ==> !InBox(dist[j], baf, dr, t)
  {
    if dist == [] then None
    else if InBox(dist[0], baf, dr, t) then Some(0)
    else
      match FirstInBox(dist[1..], baf, dr, t)
      case None => None
      case Some(i) => Some(i + 1)
  }

  /** The threshold of pass k. */
  function Threshold(step: real, k: nat): real
  {
    k as real * step
  }

  lemma ThresholdNext(step: real, k: nat)
    ensures Threshold(step, k + 1) == Threshold(step, k) + step
  {
    assert (k + 1) as real * step == k as real * step + 1.0 * step;
  }

  /** Pass k ends the search: its first point in the box has a truthy (non-zero) total. */
  predicate Accepts(dist: seq<Point>, baf: Num, dr: Num, step: real, k: nat)
  {
    var h := FirstInBox(dist, baf, dr, Threshold(step, k));
    h.Some? && dist[h.value].total != 0
  }

  /** The point taken in pass k. */
  function TakenAt(dist: seq<Point>, baf: Num, dr: Num, step: real, k: nat): Point
    requires FirstInBox(dist, baf, dr, Threshold(step, k)).Some?
  {
    dist[FirstInBox(dist, baf, dr, Threshold(step, k)).value]
  }

  /** Pass k is the one the `while (!total)` loop stops after. */
  ghost predicate LastPass(dist: seq<Point>, baf: Num, dr: Num, step: real, k: nat)
  {
    Accepts(dist, baf, dr, step, k) && forall j: nat :: j < k ==> !Accepts(dist, baf, dr, step, j)
  }

  /** `!total` for `null` (None) or a number. */
  predicate Truthy(total: Option<nat>)
  {
    total.Some? && total.value != 0
  }

  /** At most one pass is the last one, so the result is determined. */
  lemma LastPassUnique(dist: seq<Point>, baf: Num, dr: Num, step: real, k1: nat, k2: nat)
    requires LastPass(dist, baf, dr, step, k1) && LastPass(dist, baf, dr, step, k2)
    ensures k1 == k2
  {
  }

  class Matcher {
    const theoreticalDistribution: seq<Point>
    const thresholdStep: real

    constructor (theoreticalDistribution: seq<Point>, thresholdStep: real := 0.01)
      ensures this.theoreticalDistribution == theoreticalDistribution
      ensures this.thresholdStep == thresholdStep
    {
      this.theoreticalDistribution := theoreticalDistribution;
      this.thresholdStep := thresholdStep;
    }

    /**
      One pass of the inner `for` loop: the genotype of the first point within
      `threshold` on both axes replaces `total` and `minor`; without such a
      point they are left as they were.
     */
    method Pass(baf: Num, dr: Num, threshold: real, total0: Option<nat>, minor0: Option<nat>)
      returns (total: Option<nat>, minor: Option<nat>)
      ensures var h := FirstInBox(theoreticalDistribution, baf, dr, threshold);
        && (h.Some? ==> total == Some(theoreticalDistribution[h.value].total)
                        && minor == Some(theoreticalDistribution[h.value].minor))
        && (h.None? ==> total == total0 && minor == minor0)
    {
      var dist := theoreticalDistribution;
      total, minor := total0, minor0;
      var i := 0;
      while i < |dist|
        invariant 0 <= i <= |dist|
        invariant forall j :: 0 <= j < i ==> !InBox(dist[j], baf, dr, threshold)
        invariant total == total0 && minor == minor0
      {
        var tdBaf, tdDr := dist[i].baf, dist[i].dr;
        if baf.Num? && Abs(baf.value - tdBaf) <= threshold
          && dr.Num? && Abs(dr.value - tdDr) <= threshold
        {
          total := Some(dist[i].total);
          minor := Some(dist[i].minor);
          break;
        }
        i := i + 1;
      }
      ghost var h := FirstInBox(dist, baf, dr, threshold);
      assert h.Some? ==> h.value == i;
    }

    /**
      `findMatch(record)`. The loop ends only if some pass accepts, which is what
      the precondition says; the result carries the genotype of the point taken
      in the first accepting pass.
     */
    method FindMatch(record: DataRow) returns (matched: MatchedRow)
      requires exists k: nat :: Accepts(theoreticalDistribution, record.baf, record.dr, thresholdStep, k)
      ensures matched.record == record && matched.total != 0
      ensures exists k: nat ::
        && LastPass(theoreticalDistribution, record.baf, record.dr, thresholdStep, k)
        && matched.total == TakenAt(theoreticalDistribution, record.baf, record.dr, thresholdStep, k).total
        && matched.minor == TakenAt(theoreticalDistribution, record.baf, record.dr, thresholdStep, k).minor
    {
      var dist, step := theoreticalDistribution, thresholdStep;
      var baf, dr := record.baf, record.dr;
      var total: Option<nat> := None;
      var minor: Option<nat> := None;
      var currentThreshold := 0.0;
      ghost var k: nat := 0;
      ghost var bound: nat :| Accepts(dist, baf, dr, step, bound);
      while !Truthy(total)
        invariant currentThreshold == Threshold(step, k)
        invariant forall j: nat :: j + 1 < k ==> !Accepts(dist, baf, dr, step, j)
        invariant Truthy(total) <==> k > 0 && Accepts(dist, baf, dr, step, k - 1)
        invariant Truthy(total) ==> && minor.Some?
                                    && total.value == TakenAt(dist, baf, dr, step, k - 1).total
                                    && minor.value == TakenAt(dist, baf, dr, step, k - 1).minor
        invariant k <= bound + 1
        decreases bound + 1 - k
      {
        assert forall j: nat :: j < k ==> !Accepts(dist, baf, dr, step, j);
        total, minor := Pass(baf, dr, currentThreshold, total, minor);
        ThresholdNext(step, k);
        currentThreshold := currentThreshold + step;
        k := k + 1;
      }
      matched := MatchedRow(record, total.value, minor.value);
      assert LastPass(dist, baf, dr, step, k - 1);
    }
  }

  /** No pass from `bound` on accepts. */
  ghost predicate NoAcceptFrom(dist: seq<Point>, baf: Num, dr: Num, step: real, bound: nat)
  {
    forall k: nat :: k >= bound ==> !Accepts(dist, baf, dr, step, k)
  }

  /** A NaN BAF or DR fails every comparison: no pass accepts and the loop never ends. */
  lemma NaNNeverAccepted(dist: seq<Point>, baf: Num, dr: Num, step: real, k: nat)
    requires baf.NaN? || dr.NaN?
    ensures !Accepts(dist, baf, dr, step, k)
  {
  }

  /** An empty distribution never accepts either. */
  lemma EmptyNeverAccepted(baf: Num, dr: Num, step: real, k: nat)
    ensures !Accepts([], baf, dr, step, k)
  {
  }

  /** Some pass reaches any given distance when the step is positive. */
  lemma CoveringPass(d: real, step: real) returns (k: nat)
    requires d >= 0.0 && step > 0.0
    ensures Threshold(step, k) >= d
    ensures forall j: nat :: j >= k ==> Threshold(step, j) >= d
  {
    var q := d / step;
    k := q.Floor + 1;
    assert k as real > q;
    assert q * step == d;
    assert k as real * step > q * step;
    forall j: nat | j >= k
      ensures Threshold(step, j) >= d
    {
      assert (j - k) as real * step >= 0.0;
    }
  }

  /** The distance at which a point enters the box around a finite record. */
  function BoxDistance(p: Point, baf: real, dr: real): (d: real)
    ensures d >= 0.0 && forall t :: t >= d ==> InBox(p, Num(baf), Num(dr), t)
  {
    if Abs(baf - p.baf) < Abs(dr - p.dr) then Abs(dr - p.dr) else Abs(baf - p.baf)
  }

  /**
    With a finite record, a positive step and a first point of non-zero total,
    some pass accepts: the box eventually contains the first point.
   */
  lemma AcceptedWhenFirstTotalNonZero(dist: seq<Point>, baf: real, dr: real, step: real)
    requires dist != [] && dist[0].total != 0 && step > 0.0
    ensures exists k: nat :: Accepts(dist, Num(baf), Num(dr), step, k)
  {
    var k := CoveringPass(BoxDistance(dist[0], baf, dr), step);
    assert FirstInBox(dist, Num(baf), Num(dr), Threshold(step, k)) == Some(0);
    assert Accepts(dist, Num(baf), Num(dr), step, k);
  }

  /**
    When the first point has total 0, from some pass on that point is the one
    taken, so no later pass accepts; the loop ends only if an earlier pass does.
   */
  lemma StuckWhenFirstTotalZero(dist: seq<Point>, baf: real, dr: real, step: real)
    requires dist != [] && dist[0].total == 0 && step > 0.0
    ensures exists bound: nat :: NoAcceptFrom(dist, Num(baf), Num(dr), step, bound)
  {
    var bound := CoveringPass(BoxDistance(dist[0], baf, dr), step);
    forall k: nat | k >= bound
      ensures !Accepts(dist, Num(baf), Num(dr), step, k)
    {
      assert FirstInBox(dist, Num(baf), Num(dr), Threshold(step, k)) == Some(0);
    }
    assert NoAcceptFrom(dist, Num(baf), Num(dr), step, bound);
  }

  /**
    A record equal to point i, with no earlier point at the same coordinates and
    a non-zero total, is matched to point i in the very first pass (threshold 0).
   */
  lemma ExactHitFirstPass(dist: seq<Point>, baf: real, dr: real, step: real, i: nat)
    requires i < |dist| && dist[i].baf == baf && dist[i].dr == dr && dist[i].total != 0
    requires forall j :: 0 <= j < i ==> !(dist[j].baf == baf && dist[j].dr == dr)
    ensures LastPass(dist, Num(baf), Num(dr), step, 0)
    ensures TakenAt(dist, Num(baf), Num(dr), step, 0) == dist[i]
  {
    assert Threshold(step, 0) == 0.0;
    assert forall j :: 0 <= j < |dist| ==> (InBox(dist[j], Num(baf), Num(dr), 0.0) <==> dist[j].baf == baf && dist[j].dr == dr);
  }

  /** Two entries of the table with the same coordinates are the same genotype (purity > 0). */
  lemma SameCoordinatesSameGenotype(purity: real, ploidy: real, copies: seq<nat>, i: nat, j: nat)
    requires purity > 0.0 && Defined(purity, ploidy, copies)
    requires i < |Distribution(purity, ploidy, copies)| && j < |Distribution(purity, ploidy, copies)|
    ensures var d := Distribution(purity, ploidy, copies);
      d[i].baf == d[j].baf && d[i].dr == d[j].dr ==> d[i] == d[j]
  {
    var d := Distribution(purity, ploidy, copies);
    DistributionEntry(purity, ploidy, copies, i);
    DistributionEntry(purity, ploidy, copies, j);
    if d[i].baf == d[j].baf && d[i].dr == d[j].dr {
      DepthRatioInjective(purity, ploidy, d[i].total, d[j].total);
      BafInjective(purity, d[i].total, d[i].minor, d[j].minor);
    }
  }

  /** Without repeated copy numbers the table has no repeated entry. */
  lemma {:induction false} DistributionDistinct(purity: real, ploidy: real, copies: seq<nat>)
    requires Defined(purity, ploidy, copies) && NoDup(copies)
    ensures NoDup(Distribution(purity, ploidy, copies))
  {
    if copies != [] {
      var n := |copies| - 1;
      var prefix := copies[..n];
      var cn := copies[n];
      DefinedPrefix(purity, ploidy, copies, n);
      DistributionDistinct(purity, ploidy, prefix);
      var front := Distribution(purity, ploidy, prefix);
      var group := Group(purity, ploidy, cn, MaxB(cn));
      forall a | 0 <= a < |front|
        ensures front[a].total != cn
      {
        DistributionEntry(purity, ploidy, prefix, a);
      }
      assert Distribution(purity, ploidy, copies) == front + group;
    }
  }

  /** The first point of the list at the coordinates of point i. */
  lemma FirstAtCoordinates(dist: seq<Point>, i: nat) returns (first: nat)
    requires i < |dist|
    ensures first <= i && dist[first].baf == dist[i].baf && dist[first].dr == dist[i].dr
    ensures forall j :: 0 <= j < first ==> !(dist[j].baf == dist[i].baf && dist[j].dr == dist[i].dr)
  {
    first := 0;
    while !(dist[first].baf == dist[i].baf && dist[first].dr == dist[i].dr)
      invariant first <= i
      invariant forall j :: 0 <= j < first ==> !(dist[j].baf == dist[i].baf && dist[j].dr == dist[i].dr)
      decreases i - first
    {
      first := first + 1;
    }
  }

  /**
    Round trip: classifying a theoretical point's own (BAF, DR) against the table
    it came from recovers its own total and minor in the first pass, provided
    the purity is positive and the total is non-zero. Repeated copy numbers are
    allowed: the point taken is the first entry at those coordinates, which is
    the same genotype.
   */
  lemma TheoreticalPointRecovered(purity: real, ploidy: real, copies: seq<nat>, step: real, i: nat)
    requires 0.0 < purity && Defined(purity, ploidy, copies)
    requires i < |Distribution(purity, ploidy, copies)|
    requires Distribution(purity, ploidy, copies)[i].total != 0
    ensures var d := Distribution(purity, ploidy, copies);
      && LastPass(d, Num(d[i].baf), Num(d[i].dr), step, 0)
      && TakenAt(d, Num(d[i].baf), Num(d[i].dr), step, 0) == d[i]
  {
    var d := Distribution(purity, ploidy, copies);
    var first := FirstAtCoordinates(d, i);
    SameCoordinatesSameGenotype(purity, ploidy, copies, first, i);
    ExactHitFirstPass(d, d[i].baf, d[i].dr, step, first);
  }
}
