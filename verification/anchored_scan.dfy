/**
 * The forward scan shared by the distance filter and the angle filter
 * (route.py, `_smoothen_by_distance` and `_smoothen_by_angle`). Index 0 and the
 * last index are always kept; an interior index `i` is kept iff
 * `keep(anchor, s[i], s[i + 1])` holds, where `anchor` is the most recently
 * KEPT point and `s[i + 1]` is the ORIGINAL next point. The scan is written
 * over kept indices, so that the output is visibly a subsequence of the input.
 */
module AnchoredScan {
  import opened Polylines

  /** The keep decision for an interior point: (last kept point, current point, original next point). */
  type Rule = (Point, Point, Point) -> bool

  /** Interior indices in `i .. |s| - 2` kept when the last kept index is `a`. */
  function KeptFrom(s: Polyline, keep: Rule, a: nat, i: nat): (K: seq<nat>)
    requires a < i < |s|
    ensures forall k :: 0 <= k < |K| ==> i <= K[k] < |s| - 1
    ensures Increasing(K)
    decreases |s| - i
  {
    if i == |s| - 1 then []
    else if keep(s[a], s[i], s[i + 1]) then [i] + KeptFrom(s, keep, i, i + 1)
    else KeptFrom(s, keep, a, i + 1)
  }

  /** All kept indices of `s`: the first, the kept interior ones, and the last. */
  function Kept(s: Polyline, keep: Rule): (K: seq<nat>)
    ensures Below(K, |s|) && Increasing(K)
    ensures |s| > 0 ==> |K| > 0 && K[0] == 0 && K[|K| - 1] == |s| - 1
    ensures |s| > 1 ==> |K| > 1
    ensures |s| == 0 ==> K == []
  {
    if |s| == 0 then []
    else if |s| == 1 then [0]
    else [0] + KeptFrom(s, keep, 0, 1) + [|s| - 1]
  }

  /** The polyline the scan builds. */
  function Scan(s: Polyline, keep: Rule): (r: Polyline)
    ensures |s| > 0 ==> |r| > 0 && r[0] == s[0] && r[|r| - 1] == s[|s| - 1]
    ensures |s| > 1 ==> |r| > 1
    ensures |s| <= 2 ==> r == s
    ensures SubsequenceAt(r, s, Kept(s, keep))
    ensures IsSubsequence(r, s) && |r| <= |s|
  {
    var r := Pick(s, Kept(s, keep));
    assert SubsequenceAt(r, s, Kept(s, keep));
    SubsequenceNoLonger(r, s);
    r
  }

  /** `M` is a list of kept indices of `s` that runs from some index to the last one. */
  ghost predicate Spans(s: Polyline, M: seq<nat>)
  {
    |M| >= 2 && Below(M, |s|) && Increasing(M) && M[|M| - 1] == |s| - 1
  }

  /** The rule's verdict on index `i` when the last kept index is `a`. */
  ghost function Passes(s: Polyline, keep: Rule, a: nat, i: nat): bool
    requires a < |s| && i + 1 < |s|
  {
    keep(s[a], s[i], s[i + 1])
  }

  /** Every interior kept index passed the rule against the kept index before it. */
  ghost predicate KeptPassed(s: Polyline, keep: Rule, M: seq<nat>)
    requires Spans(s, M)
  {
    forall k, l :: 0 <= k && l == k + 1 && l < |M| - 1 ==> Passes(s, keep, M[k], M[l])
  }

  /** Every skipped index from `lo` on failed the rule against the kept index before it. */
  ghost predicate SkippedFailed(s: Polyline, keep: Rule, M: seq<nat>, lo: nat)
    requires Spans(s, M)
  {
    forall k, l, j :: 0 <= k && l == k + 1 && l < |M| && M[k] < j < M[l] && lo <= j ==>
      !Passes(s, keep, M[k], j)
  }

  /** `M` is the kept-index list of a greedy anchored scan, judged for skipped indices from `lo` on. */
  ghost predicate GreedyFrom(s: Polyline, keep: Rule, M: seq<nat>, lo: nat)
  {
    Spans(s, M) && KeptPassed(s, keep, M) && SkippedFailed(s, keep, M, lo)
  }

  /** `M` is a greedy anchored scan of the whole of `s`, starting at index 0. */
  ghost predicate Greedy(s: Polyline, keep: Rule, M: seq<nat>)
  {
    |M| > 0 && M[0] == 0 && GreedyFrom(s, keep, M, 1)
  }

  lemma KeptFromSpans(s: Polyline, keep: Rule, a: nat, i: nat)
    requires a < i < |s|
    ensures Spans(s, [a] + KeptFrom(s, keep, a, i) + [|s| - 1])
  {
    var L := KeptFrom(s, keep, a, i);
    var M := [a] + L + [|s| - 1];
    forall x, y | 0 <= x < y < |M| ensures M[x] < M[y] {
      if 0 < x && y < |M| - 1 {
        assert M[x] == L[x - 1] && M[y] == L[y - 1];
      } else if 0 < x {
        assert M[x] == L[x - 1];
      } else if y < |M| - 1 {
        assert M[y] == L[y - 1];
      }
    }
  }

  /** Prepending a kept anchor below the rest keeps a list spanning. */
  lemma SpansCons(s: Polyline, a: nat, M: seq<nat>)
    requires Spans(s, M) && a < M[0]
    ensures Spans(s, [a] + M)
  {
    var N := [a] + M;
    forall x, y | 0 <= x < y < |N| ensures N[x] < N[y] {
      if 0 < x {
        assert N[x] == M[x - 1] && N[y] == M[y - 1];
      } else {
        assert N[y] == M[y - 1];
        assert M[0] <= M[y - 1];
      }
    }
  }

  lemma {:induction false} KeptFromIsGreedy(s: Polyline, keep: Rule, a: nat, i: nat)
    requires a < i < |s|
    ensures GreedyFrom(s, keep, [a] + KeptFrom(s, keep, a, i) + [|s| - 1], i)
    decreases |s| - i
  {
    KeptFromSpans(s, keep, a, i);
    if i == |s| - 1 {
      assert [a] + KeptFrom(s, keep, a, i) + [|s| - 1] == [a, |s| - 1];
    } else if Passes(s, keep, a, i) {
      KeptFromIsGreedy(s, keep, i, i + 1);
      GreedyKeepStep(s, keep, a, i);
    } else {
      KeptFromIsGreedy(s, keep, a, i + 1);
      GreedySkipStep(s, keep, a, i);
    }
  }

  /** Keeping index `i` puts it in front of the greedy list that starts there. */
  lemma GreedyKeepStep(s: Polyline, keep: Rule, a: nat, i: nat)
    requires a < i < |s| - 1 && Passes(s, keep, a, i)
    requires GreedyFrom(s, keep, [i] + KeptFrom(s, keep, i, i + 1) + [|s| - 1], i + 1)
    ensures GreedyFrom(s, keep, [a] + KeptFrom(s, keep, a, i) + [|s| - 1], i)
  {
    var M' := [i] + KeptFrom(s, keep, i, i + 1) + [|s| - 1];
    assert [a] + KeptFrom(s, keep, a, i) + [|s| - 1] == [a] + M';
    KeptPassedCons(s, keep, a, M');
    SkippedFailedCons(s, keep, a, M', i);
  }

  /** Skipping index `i` leaves the greedy list from the same anchor, now judged from `i` on. */
  lemma GreedySkipStep(s: Polyline, keep: Rule, a: nat, i: nat)
    requires a < i < |s| - 1 && !Passes(s, keep, a, i)
    requires GreedyFrom(s, keep, [a] + KeptFrom(s, keep, a, i + 1) + [|s| - 1], i + 1)
    ensures GreedyFrom(s, keep, [a] + KeptFrom(s, keep, a, i) + [|s| - 1], i)
  {
    var M := [a] + KeptFrom(s, keep, a, i) + [|s| - 1];
    assert KeptFrom(s, keep, a, i) == KeptFrom(s, keep, a, i + 1);
    SkippedFailedStep(s, keep, M, i);
  }

  lemma KeptPassedCons(s: Polyline, keep: Rule, a: nat, M: seq<nat>)
    requires Spans(s, M) && a < M[0] && M[0] < |s| - 1
    requires KeptPassed(s, keep, M) && Passes(s, keep, a, M[0])
    ensures Spans(s, [a] + M) && KeptPassed(s, keep, [a] + M)
  {
    SpansCons(s, a, M);
    var N := [a] + M;
    forall k, l | 0 <= k && l == k + 1 && l < |N| - 1
      ensures Passes(s, keep, N[k], N[l])
    {
      if k > 0 {
        assert N[k] == M[k - 1] && N[l] == M[l - 1];
      }
    }
  }

  lemma SkippedFailedCons(s: Polyline, keep: Rule, a: nat, M: seq<nat>, lo: nat)
    requires Spans(s, M) && a < M[0] && lo == M[0]
    requires SkippedFailed(s, keep, M, lo + 1)
    ensures Spans(s, [a] + M) && SkippedFailed(s, keep, [a] + M, lo)
  {
    SpansCons(s, a, M);
    var N := [a] + M;
    forall k, l, j | 0 <= k && l == k + 1 && l < |N| && N[k] < j < N[l] && lo <= j
      ensures !Passes(s, keep, N[k], j)
    {
      assert N[k] == M[k - 1] && N[l] == M[l - 1];
    }
  }

  lemma SkippedFailedStep(s: Polyline, keep: Rule, M: seq<nat>, i: nat)
    requires Spans(s, M) && M[0] < i < M[1]
    requires SkippedFailed(s, keep, M, i + 1) && !Passes(s, keep, M[0], i)
    ensures SkippedFailed(s, keep, M, i)
  {
    assert forall x :: 1 <= x < |M| ==> M[1] <= M[x];
  }

  lemma {:induction false} GreedyFromIsKeptFrom(s: Polyline, keep: Rule, M: seq<nat>, a: nat, i: nat)
    requires a < i < |s|
    requires GreedyFrom(s, keep, M, i) && M[0] == a && M[1] >= i
    ensures M == [a] + KeptFrom(s, keep, a, i) + [|s| - 1]
    decreases |s| - i
  {
    if i == |s| - 1 {
      assert M == [a, |s| - 1];
    } else if M[1] == i {
      assert Passes(s, keep, M[0], M[1]);
      var M' := M[1..];
      GreedyFromTail(s, keep, M, i);
      GreedyFromIsKeptFrom(s, keep, M', i, i + 1);
      assert M == [a] + M';
    } else {
      assert !Passes(s, keep, M[0], i);
      GreedyFromIsKeptFrom(s, keep, M, a, i + 1);
    }
  }

  lemma GreedyFromTail(s: Polyline, keep: Rule, M: seq<nat>, i: nat)
    requires GreedyFrom(s, keep, M, i) && |M| > 2 && M[1] == i
    ensures GreedyFrom(s, keep, M[1..], i + 1) && M[1..][1] >= i + 1
  {
    var M' := M[1..];
    assert Spans(s, M') by {
      forall x, y | 0 <= x < y < |M'| ensures M'[x] < M'[y] {
        assert M'[x] == M[x + 1] && M'[y] == M[y + 1];
      }
    }
    forall k, l | 0 <= k && l == k + 1 && l < |M'| - 1
      ensures Passes(s, keep, M'[k], M'[l])
    {
      assert M'[k] == M[k + 1] && M'[l] == M[l + 1];
    }
    forall k, l, j | 0 <= k && l == k + 1 && l < |M'| && M'[k] < j < M'[l] && i + 1 <= j
      ensures !Passes(s, keep, M'[k], j)
    {
      assert M'[k] == M[k + 1] && M'[l] == M[l + 1];
    }
    assert M'[1] == M[2] > M[1];
  }

  /**
   * The scan is the one and only greedy anchored scan: an index list is the
   * kept-index list of `Scan` exactly when every kept point passed the rule
   * against the previous kept point and every skipped point failed it.
   */
  lemma ScanIsGreedy(s: Polyline, keep: Rule, M: seq<nat>)
    requires |s| >= 2
    ensures Greedy(s, keep, M) <==> M == Kept(s, keep)
  {
    KeptFromIsGreedy(s, keep, 0, 1);
    if Greedy(s, keep, M) {
      assert M[1] > M[0];
      GreedyFromIsKeptFrom(s, keep, M, 0, 1);
    }
  }

  /** The kept-index list of the scan satisfies the greedy anchored rule. */
  lemma KeptIsGreedy(s: Polyline, keep: Rule)
    requires |s| >= 2
    ensures Greedy(s, keep, Kept(s, keep))
  {
    ScanIsGreedy(s, keep, Kept(s, keep));
  }

  lemma {:induction false} KeptFromAll(s: Polyline, keep: Rule, a: nat, i: nat)
    requires a < i < |s|
    requires forall p: Point, q: Point, t: Point :: keep(p, q, t)
    ensures KeptFrom(s, keep, a, i) == Range(i, |s| - 1)
    decreases |s| - i
  {
    if i < |s| - 1 {
      KeptFromAll(s, keep, i, i + 1);
    }
  }

  /** A rule that keeps every point leaves the polyline unchanged. */
  lemma KeepAllIsIdentity(s: Polyline, keep: Rule)
    requires forall p: Point, q: Point, t: Point :: keep(p, q, t)
    ensures Scan(s, keep) == s
  {
    if |s| >= 2 {
      KeptFromAll(s, keep, 0, 1);
      RangeAround(|s|);
      assert Kept(s, keep) == Range(0, |s|);
      PickAll(s);
      assert Scan(s, keep) == Pick(s, Range(0, |s|));
    }
  }

  lemma {:induction false} KeptFromNone(s: Polyline, keep: Rule, a: nat, i: nat)
    requires a < i < |s|
    requires forall p: Point, q: Point, t: Point :: !keep(p, q, t)
    ensures KeptFrom(s, keep, a, i) == []
    decreases |s| - i
  {
    if i < |s| - 1 {
      KeptFromNone(s, keep, a, i + 1);
    }
  }

  /** A rule that keeps no point reduces the polyline to its two endpoints. */
  lemma KeepNoneIsEndpoints(s: Polyline, keep: Rule)
    requires |s| >= 2
    requires forall p: Point, q: Point, t: Point :: !keep(p, q, t)
    ensures Scan(s, keep) == [s[0], s[|s| - 1]]
  {
    KeptFromNone(s, keep, 0, 1);
  }

  /**
   * The scan as route.py writes it: one pass over the input, appending to
   * `filtered` and reading the anchor back as `filtered[-1]`.
   */
  method ScanLoop(s: Polyline, keep: Rule) returns (filtered: Polyline)
    ensures filtered == Scan(s, keep)
  {
    if |s| == 0 {
      return [];
    }
    // The first iteration always appends.
    filtered := [s[0]];
    ghost var a: nat := 0;
    for i := 1 to |s|
      invariant a < i && |filtered| > 0 && filtered[|filtered| - 1] == s[a]
      invariant [s[0]] + Pending(s, keep, 0, 1) == filtered + Pending(s, keep, a, i)
    {
      if i == |s| - 1 {
        ConcatAssoc(filtered, [s[i]], []);
        filtered := filtered + [s[i]];
        a := i;
      } else if keep(filtered[|filtered| - 1], s[i], s[i + 1]) {
        ConcatAssoc(filtered, [s[i]], Pending(s, keep, i, i + 1));
        filtered := filtered + [s[i]];
        a := i;
      }
    }
    ScanStart(s, keep);
  }

  /** The points the loop has yet to append, with `a` the last kept index and `i` the next to read. */
  ghost function Pending(s: Polyline, keep: Rule, a: nat, i: nat): Polyline
    requires a < i <= |s|
    decreases |s| - i
  {
    if i == |s| then []
    else if i == |s| - 1 then [s[i]]
    else if keep(s[a], s[i], s[i + 1]) then [s[i]] + Pending(s, keep, i, i + 1)
    else Pending(s, keep, a, i + 1)
  }

  lemma {:induction false} PendingIsPicked(s: Polyline, keep: Rule, a: nat, i: nat)
    requires a < i < |s|
    ensures Pending(s, keep, a, i) == Pick(s, KeptFrom(s, keep, a, i)) + [s[|s| - 1]]
    decreases |s| - i
  {
    if i == |s| - 1 {
      assert KeptFrom(s, keep, a, i) == [];
    } else if keep(s[a], s[i], s[i + 1]) {
      var M := KeptFrom(s, keep, i, i + 1);
      var last := [s[|s| - 1]];
      calc {
        Pending(s, keep, a, i);
        [s[i]] + Pending(s, keep, i, i + 1);
        { PendingIsPicked(s, keep, i, i + 1); }
        [s[i]] + (Pick(s, M) + last);
        { ConcatAssoc([s[i]], Pick(s, M), last); }
        ([s[i]] + Pick(s, M)) + last;
        { PickCons(s, i, M); }
        Pick(s, [i] + M) + last;
      }
    } else {
      PendingIsPicked(s, keep, a, i + 1);
    }
  }

  lemma ScanStart(s: Polyline, keep: Rule)
    requires |s| > 0
    ensures Scan(s, keep) == [s[0]] + Pending(s, keep, 0, 1)
  {
    if |s| > 1 {
      var M := KeptFrom(s, keep, 0, 1);
      PendingIsPicked(s, keep, 0, 1);
      PickCons(s, 0, M);
      PickSnoc(s, [0] + M, |s| - 1);
      ConcatAssoc([s[0]], Pick(s, M), [s[|s| - 1]]);
      assert Kept(s, keep) == [0] + M + [|s| - 1];
    } else {
      PickCons(s, 0, []);
    }
  }
}
