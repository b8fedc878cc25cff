/**
 * The distance filter (route.py, `_smoothen_by_distance`): an interior point
 * is kept iff its geodesic distance from the last KEPT point is strictly below
 * the cutoff. The first and last points are always kept.
 */
module DistanceFilter {
  import opened Polylines
  import AnchoredScan

  /** The keep decision: close enough to the last kept point; the original next point is not consulted. */
  function Rule(dist: Metric, cutoff: real): AnchoredScan.Rule
  {
    (anchor: Point, cur: Point, next: Point) => dist(anchor, cur) < cutoff
  }

  /** The filtered polyline. */
  function Filter(s: Polyline, cutoff: real, dist: Metric): (r: Polyline)
    ensures |s| > 0 ==> |r| > 0 && r[0] == s[0] && r[|r| - 1] == s[|s| - 1]
    ensures |s| > 1 ==> |r| > 1
    ensures |s| <= 2 ==> r == s
    ensures IsSubsequence(r, s) && |r| <= |s|
  {
    AnchoredScan.Scan(s, Rule(dist, cutoff))
  }

  /**
   * Both directions of the keep decision, over input indices: a kept interior
   * point lies within the cutoff of the kept point before it, and a dropped
   * point lies at or beyond the cutoff from the last point kept before it,
   * which need not be its input predecessor.
   */
  lemma KeptIffNearLastKept(s: Polyline, cutoff: real, dist: Metric)
    requires |s| >= 2
    ensures var K := AnchoredScan.Kept(s, Rule(dist, cutoff));
      && (forall k, l :: 0 <= k && l == k + 1 && l < |K| - 1 ==> dist(s[K[k]], s[K[l]]) < cutoff)
      && (forall k, l, j :: 0 <= k && l == k + 1 && l < |K| && K[k] < j < K[l] ==>
            dist(s[K[k]], s[j]) >= cutoff)
  {
    var keep := Rule(dist, cutoff);
    var K := AnchoredScan.Kept(s, keep);
    AnchoredScan.KeptIsGreedy(s, keep);
    forall k, l | 0 <= k && l == k + 1 && l < |K| - 1
      ensures dist(s[K[k]], s[K[l]]) < cutoff
    {
      assert AnchoredScan.Passes(s, keep, K[k], K[l]);
    }
    forall k, l, j | 0 <= k && l == k + 1 && l < |K| && K[k] < j < K[l]
      ensures dist(s[K[k]], s[j]) >= cutoff
    {
      assert !AnchoredScan.Passes(s, keep, K[k], j);
    }
  }

  /**
   * The per-step invariant on the output: consecutive output points are within
   * the cutoff, except for the final pair, which is forced by keeping the last point.
   */
  lemma StepWithinCutoff(s: Polyline, cutoff: real, dist: Metric)
    ensures var r := Filter(s, cutoff, dist);
      forall k :: 0 <= k < |r| - 2 ==> dist(r[k], r[k + 1]) < cutoff
  {
    if |s| >= 2 {
      var K := AnchoredScan.Kept(s, Rule(dist, cutoff));
      var r := Filter(s, cutoff, dist);
      KeptIffNearLastKept(s, cutoff, dist);
      forall k | 0 <= k < |r| - 2 ensures dist(r[k], r[k + 1]) < cutoff {
        assert r[k] == s[K[k]] && r[k + 1] == s[K[k + 1]];
      }
    }
  }

  /** With a cutoff no distance can be below, only the two endpoints survive. */
  lemma NonPositiveCutoffKeepsEndpoints(s: Polyline, cutoff: real, dist: Metric)
    requires NonNegative(dist) && cutoff <= 0.0 && |s| >= 2
    ensures Filter(s, cutoff, dist) == [s[0], s[|s| - 1]]
  {
    AnchoredScan.KeepNoneIsEndpoints(s, Rule(dist, cutoff));
  }

  /** The filter as route.py runs it, one pass appending to `filtered`. */
  method SmoothenByDistance(s: Polyline, cutoff: real, dist: Metric) returns (filtered: Polyline)
    ensures filtered == Filter(s, cutoff, dist)
    ensures |s| > 0 ==> filtered[0] == s[0] && filtered[|filtered| - 1] == s[|s| - 1]
  {
    filtered := AnchoredScan.ScanLoop(s, Rule(dist, cutoff));
  }
}
