/**
 * The angle filter (route.py, `_smoothen_by_angle` and `__get_point_angle`).
 * For an interior point `cur` it measures A = prev->cur, C = cur->next and
 * B = prev->next, where `prev` is the last KEPT point and `next` is the
 * ORIGINAL next input point, and computes the angle at `cur` by the law of
 * cosines. The point is dropped iff that angle is below the cutoff, so sharp
 * spikes go; a point on a straight stretch has angle acos(-1), which is 180
 * degrees for a proper acos, and then stays for every cutoff up to 180.
 */
module AngleFilter {
  import opened Polylines
  import AnchoredScan

  /** `acosDeg` behaves as degrees(acos(x)) does on its domain: results lie in [0, 180]. */
  ghost predicate IsAcosDegrees(acosDeg: real -> real)
  {
    forall x :: -1.0 <= x <= 1.0 ==> 0.0 <= acosDeg(x) <= 180.0
  }

  /** The law-of-cosines argument for the angle between sides A and C opposite B. */
  function CosineArgument(A: real, B: real, C: real): real
    requires 2.0 * A * C != 0.0
  {
    (A * A + C * C - B * B) / (2.0 * A * C)
  }

  /**
   * The angle at the middle point, in degrees. A zero denominator (Python's
   * ZeroDivisionError) and an argument outside [-1, 1] (acos's ValueError)
   * both give 0 instead of an error.
   */
  function PointAngle(A: real, B: real, C: real, acosDeg: real -> real): (angle: real)
    ensures 2.0 * A * C == 0.0 ==> angle == 0.0
    ensures 2.0 * A * C != 0.0 && !(-1.0 <= CosineArgument(A, B, C) <= 1.0) ==> angle == 0.0
    ensures 2.0 * A * C != 0.0 && -1.0 <= CosineArgument(A, B, C) <= 1.0 ==>
      angle == acosDeg(CosineArgument(A, B, C))
    ensures IsAcosDegrees(acosDeg) ==> 0.0 <= angle <= 180.0
  {
    if 2.0 * A * C == 0.0 then 0.0
    else
      var x := CosineArgument(A, B, C);
      if x < -1.0 || 1.0 < x then 0.0 else acosDeg(x)
  }

  /** The angle the filter computes at `cur` between the last kept point and the original next point. */
  function AngleAt(prev: Point, cur: Point, next: Point, dist: Metric, acosDeg: real -> real): real
  {
    PointAngle(dist(prev, cur), dist(prev, next), dist(cur, next), acosDeg)
  }

  /** The keep decision: an angle at or above the cutoff. */
  function Rule(dist: Metric, acosDeg: real -> real, cutoff: real): AnchoredScan.Rule
  {
    (prev: Point, cur: Point, next: Point) => !(AngleAt(prev, cur, next, dist, acosDeg) < cutoff)
  }

  /** The filtered polyline. */
  function Filter(s: Polyline, cutoff: real, dist: Metric, acosDeg: real -> real): (r: Polyline)
    ensures |s| > 0 ==> |r| > 0 && r[0] == s[0] && r[|r| - 1] == s[|s| - 1]
    ensures |s| > 1 ==> |r| > 1
    ensures |s| <= 2 ==> r == s
    ensures IsSubsequence(r, s) && |r| <= |s|
  {
    AnchoredScan.Scan(s, Rule(dist, acosDeg, cutoff))
  }

  /**
   * Both directions of the keep decision, over input indices: a kept interior
   * point makes an angle at or above the cutoff with the kept point before it
   * and its original successor; a dropped point makes an angle below the cutoff
   * with the last point kept before it and its original successor.
   */
  lemma KeptIffAngleAtLeastCutoff(s: Polyline, cutoff: real, dist: Metric, acosDeg: real -> real)
    requires |s| >= 2
    ensures var K := AnchoredScan.Kept(s, Rule(dist, acosDeg, cutoff));
      && (forall k, l :: 0 <= k && l == k + 1 && l < |K| - 1 ==>
            AngleAt(s[K[k]], s[K[l]], s[K[l] + 1], dist, acosDeg) >= cutoff)
      && (forall k, l, j :: 0 <= k && l == k + 1 && l < |K| && K[k] < j < K[l] ==>
            AngleAt(s[K[k]], s[j], s[j + 1], dist, acosDeg) < cutoff)
  {
    AnchoredScan.KeptIsGreedy(s, Rule(dist, acosDeg, cutoff));
    GreedyAngleDecisions(s, cutoff, dist, acosDeg, AnchoredScan.Kept(s, Rule(dist, acosDeg, cutoff)));
  }

  lemma GreedyAngleDecisions(s: Polyline, cutoff: real, dist: Metric, acosDeg: real -> real, K: seq<nat>)
    requires AnchoredScan.Greedy(s, Rule(dist, acosDeg, cutoff), K)
    ensures forall k, l :: 0 <= k && l == k + 1 && l < |K| - 1 ==>
      AngleAt(s[K[k]], s[K[l]], s[K[l] + 1], dist, acosDeg) >= cutoff
    ensures forall k, l, j :: 0 <= k && l == k + 1 && l < |K| && K[k] < j < K[l] ==>
      AngleAt(s[K[k]], s[j], s[j + 1], dist, acosDeg) < cutoff
  {
    var keep := Rule(dist, acosDeg, cutoff);
    forall k, l | 0 <= k && l == k + 1 && l < |K| - 1
      ensures AngleAt(s[K[k]], s[K[l]], s[K[l] + 1], dist, acosDeg) >= cutoff
    {
      assert AnchoredScan.Passes(s, keep, K[k], K[l]);
    }
    forall k, l, j | 0 <= k && l == k + 1 && l < |K| && K[k] < j < K[l]
      ensures AngleAt(s[K[k]], s[j], s[j + 1], dist, acosDeg) < cutoff
    {
      assert !AnchoredScan.Passes(s, keep, K[k], j);
    }
  }

  /** No angle is negative, so a cutoff of 0 or below keeps every point. */
  lemma NonPositiveCutoffKeepsAll(s: Polyline, cutoff: real, dist: Metric, acosDeg: real -> real)
    requires IsAcosDegrees(acosDeg) && cutoff <= 0.0
    ensures Filter(s, cutoff, dist, acosDeg) == s
  {
    AnchoredScan.KeepAllIsIdentity(s, Rule(dist, acosDeg, cutoff));
  }

  /** No angle exceeds 180 degrees, so a cutoff above 180 keeps only the endpoints. */
  lemma CutoffAbove180KeepsEndpoints(s: Polyline, cutoff: real, dist: Metric, acosDeg: real -> real)
    requires IsAcosDegrees(acosDeg) && cutoff > 180.0 && |s| >= 2
    ensures Filter(s, cutoff, dist, acosDeg) == [s[0], s[|s| - 1]]
  {
    AnchoredScan.KeepNoneIsEndpoints(s, Rule(dist, acosDeg, cutoff));
  }

  /** Equal sides 2, 2, 2: the cosine argument is exactly 1/2, so the angle is acos(1/2) = 60 degrees. */
  lemma EquilateralAngle(acosDeg: real -> real)
    ensures CosineArgument(2.0, 2.0, 2.0) == 0.5
    ensures PointAngle(2.0, 2.0, 2.0, acosDeg) == acosDeg(0.5)
  {
  }

  /** A point on a straight stretch (B = A + C) has cosine argument -1, so its angle is acos(-1). */
  lemma StraightStretchAngle(A: real, C: real, acosDeg: real -> real)
    requires A > 0.0 && C > 0.0
    ensures CosineArgument(A, A + C, C) == -1.0
    ensures PointAngle(A, A + C, C, acosDeg) == acosDeg(-1.0)
  {
  }

  /**
   * When acos(-1) is 180 degrees, a point lying on the way from the last kept
   * point to its successor (the distances add up, both parts positive) passes
   * the angle rule for every cutoff up to 180.
   */
  lemma StraightStretchKept(prev: Point, cur: Point, next: Point, cutoff: real, dist: Metric, acosDeg: real -> real)
    requires acosDeg(-1.0) == 180.0 && cutoff <= 180.0
    requires dist(prev, cur) > 0.0 && dist(cur, next) > 0.0
    requires dist(prev, next) == dist(prev, cur) + dist(cur, next)
    ensures Rule(dist, acosDeg, cutoff)(prev, cur, next)
  {
    StraightStretchAngle(dist(prev, cur), dist(cur, next), acosDeg);
  }

  /** A point at the same place as the last kept point (A = 0) falls back to angle 0. */
  lemma RepeatedPointAngle(B: real, C: real, acosDeg: real -> real)
    ensures PointAngle(0.0, B, C, acosDeg) == 0.0
  {
  }

  /** The filter as route.py runs it, one pass appending to `filtered`. */
  method SmoothenByAngle(s: Polyline, cutoff: real, dist: Metric, acosDeg: real -> real)
    returns (filtered: Polyline)
    ensures filtered == Filter(s, cutoff, dist, acosDeg)
    ensures |s| > 0 ==> filtered[0] == s[0] && filtered[|filtered| - 1] == s[|s| - 1]
  {
    filtered := AnchoredScan.ScanLoop(s, Rule(dist, acosDeg, cutoff));
  }
}
