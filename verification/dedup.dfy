/**
 * Route construction's duplicate collapser (route.py,
 * `__remove_close_duplicate_coords`): the first point is kept, and every later
 * point is kept iff it differs from the last KEPT point. Unlike the filters,
 * the last index is not forced; it survives by value, because a dropped point
 * equals the last kept one.
 */
module Dedup {
  import opened Polylines

  /** Indices in `i .. |s| - 1` kept when the last kept index is `a`. */
  function KeptFrom(s: Polyline, a: nat, i: nat): (K: seq<nat>)
    requires a < i <= |s|
    ensures forall k :: 0 <= k < |K| ==> i <= K[k] < |s|
    ensures Increasing(K)
    decreases |s| - i
  {
    if i == |s| then []
    else if s[i] != s[a] then [i] + KeptFrom(s, i, i + 1)
    else KeptFrom(s, a, i + 1)
  }

  /** All kept indices of `s`. */
  function Kept(s: Polyline): (K: seq<nat>)
    ensures Below(K, |s|) && Increasing(K)
    ensures |s| > 0 ==> |K| > 0 && K[0] == 0
    ensures |s| == 0 ==> K == []
  {
    if |s| == 0 then [] else [0] + KeptFrom(s, 0, 1)
  }

  /** `M`, a kept-index list starting at an anchor, is increasing and in range. */
  ghost predicate Anchored(s: Polyline, M: seq<nat>)
  {
    |M| > 0 && Below(M, |s|) && Increasing(M)
  }

  /** The point at `i` differs from the kept point at `a`, so the collapser keeps it. */
  ghost predicate Fresh(s: Polyline, a: nat, i: nat)
    requires a < |s| && i < |s|
  {
    s[i] != s[a]
  }

  /** Consecutive kept points differ. */
  ghost predicate KeptDiffer(s: Polyline, M: seq<nat>)
    requires Anchored(s, M)
  {
    forall k, l :: 0 <= k && l == k + 1 && l < |M| ==> Fresh(s, M[k], M[l])
  }

  /** Every skipped point from `lo` on, between two kept ones, equals the earlier kept one. */
  ghost predicate SkippedRepeat(s: Polyline, M: seq<nat>, lo: nat)
    requires Anchored(s, M)
  {
    forall k, l, j :: 0 <= k && l == k + 1 && l < |M| && M[k] < j < M[l] && lo <= j ==>
      !Fresh(s, M[k], j)
  }

  /** The last kept index. */
  ghost function LastKept(M: seq<nat>): nat
    requires |M| > 0
  {
    M[|M| - 1]
  }

  /** Every point from `lo` on after the last kept one equals it. */
  ghost predicate TailRepeat(s: Polyline, M: seq<nat>, lo: nat)
    requires Anchored(s, M)
  {
    forall j :: LastKept(M) < j < |s| && lo <= j ==> !Fresh(s, LastKept(M), j)
  }

  /** `M` is a collapse of `s`, judged for skipped points from `lo` on. */
  ghost predicate CollapsedFrom(s: Polyline, M: seq<nat>, lo: nat)
  {
    Anchored(s, M) && KeptDiffer(s, M) && SkippedRepeat(s, M, lo) && TailRepeat(s, M, lo)
  }

  lemma AnchoredCons(s: Polyline, a: nat, M: seq<nat>)
    requires Anchored(s, M) && a < M[0]
    ensures Anchored(s, [a] + M)
  {
    var N := [a] + M;
    forall x, y | 0 <= x < y < |N| ensures N[x] < N[y] {
      if 0 < x {
        assert N[x] == M[x - 1] && N[y] == M[y - 1];
      } else {
        assert N[y] == M[y - 1];
        assert M[0] <= M[y - 1];
      }
    }
  }

  lemma CollapsedCons(s: Polyline, a: nat, M: seq<nat>)
    requires Anchored(s, M) && CollapsedFrom(s, M, M[0] + 1) && a < M[0] && Fresh(s, a, M[0])
    ensures CollapsedFrom(s, [a] + M, M[0])
  {
    AnchoredCons(s, a, M);
    var N := [a] + M;
    forall k, l | 0 <= k && l == k + 1 && l < |N|
      ensures Fresh(s, N[k], N[l])
    {
      if k > 0 {
        assert N[k] == M[k - 1] && N[l] == M[l - 1];
      }
    }
    forall k, l, j | 0 <= k && l == k + 1 && l < |N| && N[k] < j < N[l] && M[0] <= j
      ensures !Fresh(s, N[k], j)
    {
      assert N[k] == M[k - 1] && N[l] == M[l - 1];
    }
    assert LastKept(N) == LastKept(M);
  }

  lemma CollapsedSkip(s: Polyline, M: seq<nat>, i: nat)
    requires CollapsedFrom(s, M, i + 1) && M[0] < i < |s| && !Fresh(s, M[0], i)
    requires |M| == 1 || i < M[1]
    ensures CollapsedFrom(s, M, i)
  {
    assert forall x :: 1 <= x < |M| ==> M[1] <= M[x];
  }

  lemma {:induction false} KeptFromCollapsed(s: Polyline, a: nat, i: nat)
    requires a < i <= |s|
    ensures CollapsedFrom(s, [a] + KeptFrom(s, a, i), i)
    decreases |s| - i
  {
    var M := [a] + KeptFrom(s, a, i);
    if i == |s| {
      assert M == [a];
    } else if Fresh(s, a, i) {
      KeptFromCollapsed(s, i, i + 1);
      var M' := [i] + KeptFrom(s, i, i + 1);
      assert M == [a] + M';
      CollapsedCons(s, a, M');
    } else {
      KeptFromCollapsed(s, a, i + 1);
      CollapsedSkip(s, M, i);
    }
  }

  /** The collapsed polyline. */
  function Collapse(s: Polyline): (r: Polyline)
    ensures |s| > 0 ==> |r| > 0 && r[0] == s[0] && r[|r| - 1] == s[|s| - 1]
    ensures |s| == 0 ==> r == []
    ensures SubsequenceAt(r, s, Kept(s)) && IsSubsequence(r, s)
    ensures NoAdjacentDuplicates(r)
  {
    var r := Pick(s, Kept(s));
    assert SubsequenceAt(r, s, Kept(s));
    CollapseFacts(s);
    r
  }

  /** The index `k` of the last kept index at or below `j`. */
  function LastAtMost(K: seq<nat>, j: nat): (k: nat)
    requires |K| > 0 && K[0] <= j && Increasing(K)
    ensures k < |K| && K[k] <= j
    ensures k == |K| - 1 || j < K[k + 1]
  {
    if K[|K| - 1] <= j then |K| - 1 else LastAtMost(K[..|K| - 1], j)
  }

  lemma CollapseFacts(s: Polyline)
    ensures var r := Pick(s, Kept(s));
      && (|s| > 0 ==> r[|r| - 1] == s[|s| - 1])
      && NoAdjacentDuplicates(r)
  {
    if |s| > 0 {
      var K := Kept(s);
      KeptFromCollapsed(s, 0, 1);
      assert CollapsedFrom(s, K, 1) && K[0] == 0;
      CollapseKeepsLast(s, K);
      CollapseNoDuplicates(s, K);
    }
  }

  /** Collapsing loses no point: the result holds exactly the points of the input. */
  lemma CollapseSamePoints(s: Polyline)
    ensures forall p :: p in Collapse(s) <==> p in s
  {
    if |s| > 0 {
      var K := Kept(s);
      KeptFromCollapsed(s, 0, 1);
      CollapseKeepsPoints(s, K);
    }
  }

  lemma CollapseKeepsLast(s: Polyline, K: seq<nat>)
    requires Anchored(s, K) && TailRepeat(s, K, 1) && K[0] == 0
    ensures Pick(s, K)[|K| - 1] == s[|s| - 1]
  {
    if LastKept(K) < |s| - 1 {
      assert !Fresh(s, LastKept(K), |s| - 1);
    }
  }

  lemma CollapseNoDuplicates(s: Polyline, K: seq<nat>)
    requires CollapsedFrom(s, K, 1)
    ensures NoAdjacentDuplicates(Pick(s, K))
  {
    var r := Pick(s, K);
    forall k | 0 < k < |r| ensures r[k - 1] != r[k] {
      assert Fresh(s, K[k - 1], K[k]);
    }
  }

  lemma CollapseKeepsPoints(s: Polyline, K: seq<nat>)
    requires CollapsedFrom(s, K, 1) && K[0] == 0
    ensures forall p :: p in Pick(s, K) <==> p in s
  {
    var r := Pick(s, K);
    forall j | 0 <= j < |s| ensures s[j] in r {
      PointSurvives(s, K, j);
    }
    forall k | 0 <= k < |r| ensures r[k] in s {
      assert r[k] == s[K[k]];
    }
  }

  lemma PointSurvives(s: Polyline, K: seq<nat>, j: nat)
    requires j < |s| && CollapsedFrom(s, K, 1) && K[0] == 0
    ensures s[j] in Pick(s, K)
  {
    var k := LastAtMost(K, j);
    if K[k] < j {
      if k < |K| - 1 {
        assert !Fresh(s, K[k], j);
      } else {
        assert !Fresh(s, LastKept(K), j);
      }
    }
    assert s[K[k]] == s[j];
    assert Pick(s, K)[k] == s[K[k]];
  }

  /** Collapse leaves a polyline without adjacent duplicates as it is. */
  lemma {:induction false} CollapseFixesClean(t: Polyline)
    requires NoAdjacentDuplicates(t)
    ensures Collapse(t) == t
  {
    if |t| > 0 {
      CleanKeptFrom(t, 1);
      assert Kept(t) == Range(0, |t|);
      PickAll(t);
    }
  }

  lemma {:induction false} CleanKeptFrom(t: Polyline, i: nat)
    requires NoAdjacentDuplicates(t) && 0 < i <= |t|
    ensures KeptFrom(t, i - 1, i) == Range(i, |t|)
    decreases |t| - i
  {
    if i < |t| {
      assert t[i] != t[i - 1];
      CleanKeptFrom(t, i + 1);
    }
  }

  /** Collapsing twice is collapsing once. */
  lemma CollapseIdempotent(s: Polyline)
    ensures Collapse(Collapse(s)) == Collapse(s)
  {
    CollapseFixesClean(Collapse(s));
  }

  /** The collapse is a single point exactly when every input point is the same point. */
  lemma SinglePointIffConstant(s: Polyline)
    ensures |Collapse(s)| == 1 <==> |s| > 0 && forall j :: 0 <= j < |s| ==> s[j] == s[0]
  {
    if |s| > 0 {
      var K := Kept(s);
      KeptFromCollapsed(s, 0, 1);
      if |K| == 1 {
        forall j | 0 <= j < |s| ensures s[j] == s[0] {
          if j > 0 {
            assert !Fresh(s, LastKept(K), j);
          }
        }
      } else {
        assert Fresh(s, K[0], K[1]);
      }
    }
  }

  /** Route construction's loop as route.py writes it, comparing with `filtered[-1]`. */
  method CollapseLoop(s: Polyline) returns (filtered: Polyline)
    ensures filtered == Collapse(s)
  {
    if |s| == 0 {
      return [];
    }
    // The first iteration always appends.
    filtered := [s[0]];
    ghost var a: nat := 0;
    for i := 1 to |s|
      invariant a < i && |filtered| > 0 && filtered[|filtered| - 1] == s[a]
      invariant [s[0]] + Pending(s, 0, 1) == filtered + Pending(s, a, i)
    {
      if s[i] != filtered[|filtered| - 1] {
        ConcatAssoc(filtered, [s[i]], Pending(s, i, i + 1));
        filtered := filtered + [s[i]];
        a := i;
      }
    }
    CollapseStart(s);
  }

  /** The points the loop has yet to append, with `a` the last kept index and `i` the next to read. */
  ghost function Pending(s: Polyline, a: nat, i: nat): Polyline
    requires a < i <= |s|
    decreases |s| - i
  {
    if i == |s| then []
    else if s[i] != s[a] then [s[i]] + Pending(s, i, i + 1)
    else Pending(s, a, i + 1)
  }

  lemma {:induction false} PendingIsPicked(s: Polyline, a: nat, i: nat)
    requires a < i <= |s|
    ensures Pending(s, a, i) == Pick(s, KeptFrom(s, a, i))
    decreases |s| - i
  {
    if i == |s| {
      assert KeptFrom(s, a, i) == [];
    } else if s[i] != s[a] {
      var M := KeptFrom(s, i, i + 1);
      calc {
        Pending(s, a, i);
        [s[i]] + Pending(s, i, i + 1);
        { PendingIsPicked(s, i, i + 1); }
        [s[i]] + Pick(s, M);
        { PickCons(s, i, M); }
        Pick(s, [i] + M);
      }
    } else {
      PendingIsPicked(s, a, i + 1);
    }
  }

  lemma CollapseStart(s: Polyline)
    requires |s| > 0
    ensures Collapse(s) == [s[0]] + Pending(s, 0, 1)
  {
    PickCons(s, 0, KeptFrom(s, 0, 1));
    PendingIsPicked(s, 0, 1);
  }
}
