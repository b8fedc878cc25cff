/**
 * Points, polylines, and the notion of "a subsequence of the input" shared by
 * every filter of the smoothing pipeline. A filter never invents or reorders
 * points: its output is the input read at a strictly increasing list of kept
 * indices, and that list is the witness of the subsequence relation.
 */
module Polylines {

  /** A track coordinate as stored in the KML line: longitude, latitude, elevation. */
  datatype Point = Point(lon: real, lat: real, elevation: real)

  /** The coordinates of one LineString, in path order. */
  type Polyline = seq<Point>

  /** A geodesic distance between two points, supplied by the caller. */
  type Metric = (Point, Point) -> real

  /** The one assumption made about the geodesic distance: it is never negative. */
  ghost predicate NonNegative(dist: Metric)
  {
    forall p: Point, q: Point :: dist(p, q) >= 0.0
  }

  /** No two consecutive points are equal (exact equality on all three coordinates). */
  predicate NoAdjacentDuplicates(s: Polyline)
  {
    forall k :: 0 < k < |s| ==> s[k - 1] != s[k]
  }

  /** Every index in `K` addresses a position of a sequence of length `n`. */
  predicate Below(K: seq<nat>, n: nat)
  {
    forall k :: 0 <= k < |K| ==> K[k] < n
  }

  /** `K` is strictly increasing. */
  predicate Increasing(K: seq<nat>)
  {
    forall j, k :: 0 <= j < k < |K| ==> K[j] < K[k]
  }

  /** The indices `lo, lo + 1, ..., hi - 1`. */
  function Range(lo: nat, hi: nat): (K: seq<nat>)
    ensures |K| == if lo <= hi then hi - lo else 0
    ensures forall k :: 0 <= k < |K| ==> K[k] == lo + k
    decreases hi - lo
  {
    if hi <= lo then [] else [lo] + Range(lo + 1, hi)
  }

  /** The points of `s` at the indices `K`, in the order of `K`. */
  function Pick(s: Polyline, K: seq<nat>): (r: Polyline)
    requires Below(K, |s|)
    ensures |r| == |K|
    ensures forall k {:trigger r[k]} :: 0 <= k < |K| ==> r[k] == s[K[k]]
  {
    seq(|K|, k requires 0 <= k < |K| => s[K[k]])
  }

  /** `r` is `s` read at the strictly increasing indices `K`. */
  ghost predicate SubsequenceAt(r: Polyline, s: Polyline, K: seq<nat>)
  {
    Below(K, |s|) && Increasing(K) && r == Pick(s, K)
  }

  /** `r` is obtained from `s` by deleting points. */
  ghost predicate IsSubsequence(r: Polyline, s: Polyline)
  {
    exists K :: SubsequenceAt(r, s, K)
  }

  lemma PickConcat(s: Polyline, A: seq<nat>, B: seq<nat>)
    requires Below(A, |s|) && Below(B, |s|)
    ensures Below(A + B, |s|)
    ensures Pick(s, A + B) == Pick(s, A) + Pick(s, B)
  {
    assert Below(A + B, |s|) by {
      forall k | 0 <= k < |A + B| ensures (A + B)[k] < |s| {
        if k >= |A| { assert (A + B)[k] == B[k - |A|]; }
      }
    }
  }

  /** Reading one more index in front. */
  lemma PickCons(s: Polyline, i: nat, K: seq<nat>)
    requires i < |s| && Below(K, |s|)
    ensures Below([i] + K, |s|)
    ensures Pick(s, [i] + K) == [s[i]] + Pick(s, K)
  {
    assert ([i] + K)[1..] == K;
  }

  /** Reading one more index at the end. */
  lemma PickSnoc(s: Polyline, K: seq<nat>, i: nat)
    requires i < |s| && Below(K, |s|)
    ensures Below(K + [i], |s|)
    ensures Pick(s, K + [i]) == Pick(s, K) + [s[i]]
  {
    PickConcat(s, K, [i]);
    assert Pick(s, [i]) == [s[i]];
  }

  /** Regrouping a concatenation; stated once so that loops need not rediscover it. */
  lemma ConcatAssoc(x: Polyline, y: Polyline, z: Polyline)
    ensures x + (y + z) == (x + y) + z
  {
  }

  /** Reading every index in order gives back the whole polyline. */
  lemma PickAll(s: Polyline)
    ensures Below(Range(0, |s|), |s|)
    ensures Pick(s, Range(0, |s|)) == s
  {
  }

  /** The first and last index around the interior ones form the whole index range. */
  lemma RangeAround(n: nat)
    requires n >= 2
    ensures [0] + Range(1, n - 1) + [n - 1] == Range(0, n)
  {
    var L := [0] + Range(1, n - 1) + [n - 1];
    assert |L| == |Range(0, n)|;
    forall k | 0 <= k < |L| ensures L[k] == Range(0, n)[k] {
      if 0 < k < n - 1 {
        assert L[k] == Range(1, n - 1)[k - 1];
      }
    }
  }

  /** A strictly increasing index list has entries at least as large as their positions. */
  lemma {:induction false} IndexGrowth(K: seq<nat>, k: nat)
    requires Increasing(K) && k < |K|
    ensures k <= K[k]
  {
    if k > 0 {
      IndexGrowth(K, k - 1);
    }
  }

  /** Deleting points never makes a polyline longer. */
  lemma SubsequenceNoLonger(r: Polyline, s: Polyline)
    requires IsSubsequence(r, s)
    ensures |r| <= |s|
  {
    var K :| SubsequenceAt(r, s, K);
    if |K| > 0 {
      IndexGrowth(K, |K| - 1);
    }
  }

  /** Deleting points from a result of deleting points is deleting points. */
  lemma SubsequenceTransitive(r: Polyline, t: Polyline, s: Polyline)
    requires IsSubsequence(r, t) && IsSubsequence(t, s)
    ensures IsSubsequence(r, s)
  {
    var K2 :| SubsequenceAt(r, t, K2);
    var K1 :| SubsequenceAt(t, s, K1);
    var K := seq(|K2|, k requires 0 <= k < |K2| => K1[K2[k]]);
    assert Below(K, |s|);
    assert Increasing(K);
    assert SubsequenceAt(r, s, K);
  }
}
