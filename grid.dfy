/** Facts about the cluster grid: counts, the Pending positions and the first-fit window search
    (src/app.rs:799-860). */
module Grid {
  import opened Wrappers
  import opened Models

  /** How many clusters are in state `st` (`count_clusters`), counted from the front. */
  function Count(c: seq<ClusterState>, st: ClusterState): nat
    decreases |c|
  {
    if c == [] then 0 else Count(c[..|c| - 1], st) + (if c[|c| - 1] == st then 1 else 0)
  }

  /** The count is the multiplicity of `st` in the grid's multiset of states. */
  lemma {:induction false} CountIsMultiplicity(c: seq<ClusterState>, st: ClusterState)
    ensures Count(c, st) == multiset(c)[st]
    decreases |c|
  {
    if c != [] {
      var n := |c| - 1;
      assert c == c[..n] + [c[n]];
      CountIsMultiplicity(c[..n], st);
    }
  }

  /** A count cannot grow when every cluster in state `st` afterwards already was in state `st`. */
  lemma {:induction false} CountNotCreated(before: seq<ClusterState>, after: seq<ClusterState>, st: ClusterState)
    requires |before| == |after|
    requires forall i :: 0 <= i < |after| && after[i] == st ==> before[i] == st
    ensures Count(after, st) <= Count(before, st)
  {
    if after != [] {
      var n := |after| - 1;
      assert before == before[..n] + [before[n]];
      assert after == after[..n] + [after[n]];
      CountNotCreated(before[..n], after[..n], st);
    }
  }

  /** Changing one cluster moves one unit of count from its old state to its new one. */
  lemma CountAfterSet(c: seq<ClusterState>, i: nat, v: ClusterState, st: ClusterState)
    requires i < |c|
    ensures Count(c[i := v], st)
            == Count(c, st) - (if c[i] == st then 1 else 0) + (if v == st then 1 else 0)
  {
    CountIsMultiplicity(c, st);
    CountIsMultiplicity(c[i := v], st);
  }

  /** The indices of the Pending clusters in ascending order (src/app.rs:655-661, 833-839). */
  function PendingIndices(c: seq<ClusterState>): (r: seq<nat>)
    ensures |r| == Count(c, Pending)
    ensures forall k :: 0 <= k < |r| ==> r[k] < |c| && c[r[k]] == Pending
    decreases |c|
  {
    if c == [] then []
    else
      var n := |c| - 1;
      assert c == c[..n] + [c[n]];
      PendingIndices(c[..n]) + (if c[n] == Pending then [n] else [])
  }

  /** The Pending indices are listed in ascending order, and every Pending cluster is listed. */
  lemma {:induction false} PendingIndicesSortedAndComplete(c: seq<ClusterState>)
    ensures forall k, l :: 0 <= k < l < |PendingIndices(c)| ==> PendingIndices(c)[k] < PendingIndices(c)[l]
    ensures forall i :: 0 <= i < |c| && c[i] == Pending ==> i in PendingIndices(c)
    decreases |c|
  {
    if c != [] {
      var n := |c| - 1;
      assert c == c[..n] + [c[n]];
      PendingIndicesSortedAndComplete(c[..n]);
    }
  }

  /** Scanning one more cluster appends its index when it is Pending. */
  lemma PendingIndicesExtend(c: seq<ClusterState>, i: nat)
    requires i < |c|
    ensures PendingIndices(c[..i + 1]) == PendingIndices(c[..i]) + (if c[i] == Pending then [i] else [])
  {
    var d := c[..i + 1];
    assert d[..i] == c[..i];
  }

  /** The scan that collects the Pending indices, as `update` and `get_pending_indices` run it. */
  method CollectPending(c: seq<ClusterState>) returns (r: seq<nat>)
    ensures r == PendingIndices(c)
  {
    r := [];
    var i := 0;
    while i < |c|
      invariant i <= |c|
      invariant r == PendingIndices(c[..i])
    {
      PendingIndicesExtend(c, i);
      if c[i] == Pending {
        r := r + [i];
      }
      i := i + 1;
    }
    assert c[..i] == c;
  }

  /** Clusters `[s, s + n)` lie inside the grid and are all Unused. */
  predicate UnusedWindow(c: seq<ClusterState>, s: nat, n: nat) {
    s + n <= |c| && forall j :: s <= j < s + n ==> c[j] == Unused
  }

  /** The leftmost window of `size` Unused clusters at or after `from`. */
  function WindowFrom(c: seq<ClusterState>, size: nat, from: nat): (r: Option<nat>)
    ensures r.Some? ==> from <= r.value && UnusedWindow(c, r.value, size)
    ensures r.Some? ==> forall s :: from <= s < r.value ==> !UnusedWindow(c, s, size)
    ensures r.None? ==> forall s :: from <= s ==> !UnusedWindow(c, s, size)
    decreases |c| - from
  {
    if from + size > |c| then None
    else if UnusedWindow(c, from, size) then Some(from)
    else WindowFrom(c, size, from + 1)
  }

  /** The first-fit specification of `find_contiguous_unused_clusters`: no answer for a size of 0,
      otherwise the smallest start of `size` contiguous Unused clusters, and no answer iff there is
      no such window. */
  function FirstFit(c: seq<ClusterState>, size: nat): (r: Option<nat>)
    ensures size == 0 ==> r == None
    ensures r.Some? ==> UnusedWindow(c, r.value, size)
    ensures r.Some? ==> forall t :: 0 <= t < r.value ==> !UnusedWindow(c, t, size)
    ensures size > 0 && r.None? ==> forall s :: !UnusedWindow(c, s, size)
  {
    if size == 0 then None else WindowFrom(c, size, 0)
  }

  function Min(a: nat, b: nat): (r: nat)
    ensures r <= a && r <= b && (r == a || r == b)
  {
    if a <= b then a else b
  }

  /** The first-fit answer is pinned down by its contract: a window with none before it, or no
      window at all. */
  lemma FirstFitIsUnique(c: seq<ClusterState>, size: nat, r: Option<nat>)
    requires size > 0
    requires r.Some? ==> UnusedWindow(c, r.value, size)
    requires r.Some? ==> forall t :: 0 <= t < r.value ==> !UnusedWindow(c, t, size)
    requires r.None? ==> forall t :: !UnusedWindow(c, t, size)
    ensures FirstFit(c, size) == r
  {
    var f := FirstFit(c, size);
    if f.Some? && r.Some? {
      assert !(f.value < r.value) && !(r.value < f.value);
    }
  }
}
