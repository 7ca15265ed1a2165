/** The free-space index: the maximal runs of Unused clusters, longest first, and the worst-fit
    lookup over them (`FreeSpaceCache`, src/app.rs:202-258). */
module FreeSpace {
  import opened Wrappers
  import opened Models
  import opened Grid

  /** A run of clusters as `(start, length)`. */
  type Region = (nat, nat)

  predicate Covers(r: Region, i: nat) {
    r.0 <= i < r.0 + r.1
  }

  /** `r` is a maximal run of Unused clusters of `c`: nonempty, all Unused, and bounded on both
      sides by the edge of the grid or a cluster that is not Unused. */
  ghost predicate IsMaximalRun(c: seq<ClusterState>, r: Region) {
    && r.1 >= 1
    && r.0 + r.1 <= |c|
    && (forall j :: r.0 <= j < r.0 + r.1 ==> c[j] == Unused)
    && (r.0 == 0 || c[r.0 - 1] != Unused)
    && (r.0 + r.1 == |c| || c[r.0 + r.1] != Unused)
  }

  /** `a` comes before `b` in a list sorted longest-first by a stable sort of position order. */
  predicate LongerFirst(a: Region, b: Region) {
    a.1 > b.1 || (a.1 == b.1 && a.0 < b.0)
  }

  ghost predicate LongestFirst(rs: seq<Region>) {
    forall i, j :: 0 <= i < j < |rs| ==> LongerFirst(rs[i], rs[j])
  }

  ghost predicate StartsAscending(rs: seq<Region>) {
    forall i, j :: 0 <= i < j < |rs| ==> rs[i].0 < rs[j].0
  }

  /** `rs` lists exactly the maximal Unused runs of `c`, longest first, equal lengths left to right. */
  ghost predicate DescribesFreeSpace(c: seq<ClusterState>, rs: seq<Region>) {
    && (forall k :: 0 <= k < |rs| ==> IsMaximalRun(c, rs[k]))
    && (forall i :: 0 <= i < |c| && c[i] == Unused ==> exists k :: 0 <= k < |rs| && Covers(rs[k], i))
    && LongestFirst(rs)
  }

  /** `s` with `x` inserted at position `p`. */
  function InsertAt(s: seq<Region>, p: nat, x: Region): (r: seq<Region>)
    requires p <= |s|
    ensures |r| == |s| + 1 && multiset(r) == multiset(s) + multiset{x}
    ensures forall i :: 0 <= i < |r| ==> r[i] == (if i < p then s[i] else if i == p then x else s[i - 1])
  {
    assert s == s[..p] + s[p..];
    s[..p] + [x] + s[p..]
  }

  /** Inserting `x` after every longer-or-equal run and before every shorter one keeps the list
      sorted by length; when `x` also starts after every listed run, it keeps it `LongestFirst`. */
  lemma InsertKeepsOrder(s: seq<Region>, p: nat, x: Region)
    requires p <= |s|
    requires forall i, j :: 0 <= i < j < |s| ==> s[i].1 >= s[j].1
    requires forall q :: 0 <= q < p ==> s[q].1 >= x.1
    requires forall q :: p <= q < |s| ==> s[q].1 < x.1
    ensures forall i, j :: 0 <= i < j < |InsertAt(s, p, x)| ==> InsertAt(s, p, x)[i].1 >= InsertAt(s, p, x)[j].1
    ensures LongestFirst(s) && (forall q :: 0 <= q < |s| ==> s[q].0 < x.0) ==> LongestFirst(InsertAt(s, p, x))
  {
  }

  /** Runs never grow longer along `rs`. */
  ghost predicate ByLength(rs: seq<Region>) {
    forall i, j :: 0 <= i < j < |rs| ==> rs[i].1 >= rs[j].1
  }

  /** What the insertion sort keeps after `k` runs of `rs`: `sorted` holds exactly those runs, by
      length, and longest-first order when `rs` started ascending, with all of them starting before
      the next run. */
  ghost predicate SortedPrefix(rs: seq<Region>, k: nat, sorted: seq<Region>) {
    && k <= |rs|
    && multiset(sorted) == multiset(rs[..k])
    && ByLength(sorted)
    && (StartsAscending(rs) ==> LongestFirst(sorted))
    && (StartsAscending(rs) && k < |rs| ==> forall q :: 0 <= q < |sorted| ==> sorted[q].0 < rs[k].0)
  }

  /** Inserting the next run after every run at least as long keeps the sort's invariant. */
  lemma InsertStep(rs: seq<Region>, k: nat, sorted: seq<Region>, p: nat)
    requires SortedPrefix(rs, k, sorted) && k < |rs| && p <= |sorted|
    requires forall q :: 0 <= q < p ==> sorted[q].1 >= rs[k].1
    requires p < |sorted| ==> sorted[p].1 < rs[k].1
    ensures SortedPrefix(rs, k + 1, InsertAt(sorted, p, rs[k]))
  {
    var x := rs[k];
    InsertKeepsOrder(sorted, p, x);
    assert rs[..k + 1] == rs[..k] + [x];
    var r := InsertAt(sorted, p, x);
    if StartsAscending(rs) && k + 1 < |rs| {
      forall q | 0 <= q < |r| ensures r[q].0 < rs[k + 1].0 {
        assert rs[k].0 < rs[k + 1].0;
      }
    }
  }

  /** The first position of `sorted` holding a run shorter than `x`, or its end. */
  method InsertionPoint(sorted: seq<Region>, x: Region) returns (p: nat)
    ensures p <= |sorted|
    ensures forall q :: 0 <= q < p ==> sorted[q].1 >= x.1
    ensures p < |sorted| ==> sorted[p].1 < x.1
  {
    p := 0;
    while p < |sorted| && sorted[p].1 >= x.1
      invariant p <= |sorted|
      invariant forall q :: 0 <= q < p ==> sorted[q].1 >= x.1
    {
      p := p + 1;
    }
  }

  /** Stable sort by length, longest first (`sort_by(|a, b| b.1.cmp(&a.1))`), as an insertion sort. */
  method SortLongestFirst(rs: seq<Region>) returns (sorted: seq<Region>)
    ensures multiset(sorted) == multiset(rs)
    ensures forall i, j :: 0 <= i < j < |sorted| ==> sorted[i].1 >= sorted[j].1
    ensures StartsAscending(rs) ==> LongestFirst(sorted)
  {
    sorted := [];
    var k := 0;
    while k < |rs|
      invariant SortedPrefix(rs, k, sorted)
    {
      sorted := InsertNext(rs, k, sorted);
      k := k + 1;
    }
    SortedAll(rs, sorted);
  }

  /** One step of the insertion sort: run `k` goes after every run at least as long. */
  method InsertNext(rs: seq<Region>, k: nat, sorted: seq<Region>) returns (next: seq<Region>)
    requires SortedPrefix(rs, k, sorted) && k < |rs|
    ensures SortedPrefix(rs, k + 1, next)
  {
    var p := InsertionPoint(sorted, rs[k]);
    InsertStep(rs, k, sorted, p);
    next := InsertAt(sorted, p, rs[k]);
  }

  /** Once every run is inserted, the result is a longest-first permutation of the input. */
  lemma SortedAll(rs: seq<Region>, sorted: seq<Region>)
    requires SortedPrefix(rs, |rs|, sorted)
    ensures multiset(sorted) == multiset(rs)
    ensures ByLength(sorted)
    ensures StartsAscending(rs) ==> LongestFirst(sorted)
  {
    assert rs[..|rs|] == rs;
  }

  /** The position in `rs` of the first run at least `size` long (`iter().find`). */
  function FirstLongEnough(rs: seq<Region>, size: nat): (r: Option<nat>)
    ensures r.None? <==> forall k :: 0 <= k < |rs| ==> rs[k].1 < size
    ensures r.Some? ==> r.value < |rs| && rs[r.value].1 >= size
    ensures r.Some? ==> forall q :: 0 <= q < r.value ==> rs[q].1 < size
    decreases |rs|
  {
    if rs == [] then None
    else if rs[0].1 >= size then Some(0)
    else
      match FirstLongEnough(rs[1..], size)
      case None => None
      case Some(k) => Some(k + 1)
  }

  /** Longest-first order makes the first-match lookup worst-fit: it answers iff the longest run is
      long enough, and then with the start of that longest run. */
  lemma {:induction false} FirstLongEnoughIsWorstFit(rs: seq<Region>, size: nat)
    ensures LongestFirst(rs) ==> (FirstLongEnough(rs, size).Some? <==> |rs| > 0 && rs[0].1 >= size)
    ensures LongestFirst(rs) && FirstLongEnough(rs, size).Some? ==> FirstLongEnough(rs, size) == Some(0)
    ensures LongestFirst(rs) && |rs| > 0 ==> forall k :: 0 <= k < |rs| ==> rs[k].1 <= rs[0].1
  {
    if LongestFirst(rs) && |rs| > 0 {
      assert forall k :: 0 < k < |rs| ==> LongerFirst(rs[0], rs[k]);
    }
  }

  /** Two maximal runs of the same grid that share a cluster are the same run. */
  lemma MaximalRunsOverlapOnlyIfEqual(c: seq<ClusterState>, a: Region, b: Region, i: nat)
    requires IsMaximalRun(c, a) && IsMaximalRun(c, b)
    requires Covers(a, i) && Covers(b, i)
    ensures a == b
  {
  }

  /** Over a complete free-space index, the worst-fit lookup and the first-fit window scan agree on
      whether `size` clusters can be placed, and a worst-fit answer is itself a window of `size`
      Unused clusters. */
  lemma WorstFitAgreesWithFirstFit(c: seq<ClusterState>, rs: seq<Region>, size: nat)
    requires DescribesFreeSpace(c, rs)
    requires size > 0
    ensures FirstLongEnough(rs, size).None? <==> FirstFit(c, size).None?
    ensures FirstLongEnough(rs, size).Some? ==> UnusedWindow(c, rs[FirstLongEnough(rs, size).value].0, size)
  {
    var f := FirstLongEnough(rs, size);
    if f.Some? {
      var r := rs[f.value];
      assert IsMaximalRun(c, r);
      assert UnusedWindow(c, r.0, size);
    }
    var w := FirstFit(c, size);
    if w.Some? {
      var s := w.value;
      assert c[s] == Unused;
      var k :| 0 <= k < |rs| && Covers(rs[k], s);
      var r := rs[k];
      assert IsMaximalRun(c, r);
      assert r.1 >= size;
    }
  }

  ghost predicate CoveredBy(rs: seq<Region>, j: nat) {
    exists k :: 0 <= k < |rs| && Covers(rs[k], j)
  }

  lemma CoveredByAppend(rs: seq<Region>, r: Region, j: nat)
    requires CoveredBy(rs, j) || Covers(r, j)
    ensures CoveredBy(rs + [r], j)
  {
    if Covers(r, j) {
      assert (rs + [r])[|rs|] == r;
    } else {
      var k :| 0 <= k < |rs| && Covers(rs[k], j);
      assert (rs + [r])[k] == rs[k];
    }
  }

  /** Closing the open run `[s, i)` at a cluster that is not Unused, or at the end of the grid,
      adds a maximal run after all the others and covers every Unused cluster before `i`. */
  lemma CloseRun(c: seq<ClusterState>, runs: seq<Region>, s: nat, length: nat, i: nat)
    requires i <= |c| && s + length == i && length >= 1
    requires forall j :: s <= j < i ==> c[j] == Unused
    requires s == 0 || c[s - 1] != Unused
    requires i == |c| || c[i] != Unused
    requires forall k :: 0 <= k < |runs| ==> IsMaximalRun(c, runs[k])
    requires forall k :: 0 <= k < |runs| ==> runs[k].0 + runs[k].1 < s
    requires StartsAscending(runs)
    requires forall j :: 0 <= j < i && c[j] == Unused ==> CoveredBy(runs, j) || s <= j
    ensures forall k :: 0 <= k < |runs| + 1 ==> IsMaximalRun(c, (runs + [(s, length)])[k])
    ensures forall k :: 0 <= k < |runs| + 1 ==> (runs + [(s, length)])[k].0 + (runs + [(s, length)])[k].1 <= i
    ensures StartsAscending(runs + [(s, length)])
    ensures forall j :: 0 <= j < i && c[j] == Unused ==> CoveredBy(runs + [(s, length)], j)
  {
    forall j | 0 <= j < i && c[j] == Unused ensures CoveredBy(runs + [(s, length)], j) {
      CoveredByAppend(runs, (s, length), j);
    }
  }

  /** The left-to-right scan of `rebuild`: every maximal run of Unused clusters, in grid order. */
  method FreeRuns(clusters: seq<ClusterState>) returns (runs: seq<Region>)
    ensures forall k :: 0 <= k < |runs| ==> IsMaximalRun(clusters, runs[k])
    ensures forall j :: 0 <= j < |clusters| && clusters[j] == Unused ==> CoveredBy(runs, j)
    ensures StartsAscending(runs)
  {
    runs := [];
    var start: Option<nat> := None;
    var length: nat := 0;
    var i := 0;
    while i < |clusters|
      invariant i <= |clusters|
      invariant start.None? ==> length == 0 && (i == 0 || clusters[i - 1] != Unused)
      invariant start.Some? ==> start.value + length == i && length >= 1
      invariant start.Some? ==> forall j :: start.value <= j < i ==> clusters[j] == Unused
      invariant start.Some? ==> start.value == 0 || clusters[start.value - 1] != Unused
      invariant forall k :: 0 <= k < |runs| ==> IsMaximalRun(clusters, runs[k])
      invariant forall k :: 0 <= k < |runs| ==> runs[k].0 + runs[k].1 < i
      invariant start.Some? ==> forall k :: 0 <= k < |runs| ==> runs[k].0 + runs[k].1 < start.value
      invariant StartsAscending(runs)
      invariant forall j :: 0 <= j < i && clusters[j] == Unused ==>
                  CoveredBy(runs, j) || (start.Some? && start.value <= j)
    {
      if clusters[i] == Unused {
        if start.None? {
          start := Some(i);
        }
        length := length + 1;
      } else if start.Some? {
        CloseRun(clusters, runs, start.value, length, i);
        runs := runs + [(start.value, length)];
        start := None;
        length := 0;
      }
      i := i + 1;
    }
    if start.Some? {
      CloseRun(clusters, runs, start.value, length, i);
      runs := runs + [(start.value, length)];
    }
  }

  /** Any reordering of the scanned runs lists the same runs; once longest first, it describes the
      free space. */
  lemma SortedRunsDescribe(c: seq<ClusterState>, scanned: seq<Region>, sorted: seq<Region>)
    requires forall k :: 0 <= k < |scanned| ==> IsMaximalRun(c, scanned[k])
    requires forall j :: 0 <= j < |c| && c[j] == Unused ==> CoveredBy(scanned, j)
    requires multiset(sorted) == multiset(scanned) && LongestFirst(sorted)
    ensures DescribesFreeSpace(c, sorted)
  {
    forall k | 0 <= k < |sorted| ensures IsMaximalRun(c, sorted[k]) {
      assert sorted[k] in multiset(scanned);
    }
    forall j | 0 <= j < |c| && c[j] == Unused
      ensures exists k :: 0 <= k < |sorted| && Covers(sorted[k], j)
    {
      var k0 :| 0 <= k0 < |scanned| && Covers(scanned[k0], j);
      assert scanned[k0] in multiset(sorted);
      var k :| 0 <= k < |sorted| && sorted[k] == scanned[k0];
    }
  }

  /** The cached free-space index of the grid. */
  class FreeSpaceCache {
    /** `(start, length)` of the free runs, longest first once rebuilt. */
    var regions: seq<Region>
    /** Whether `regions` must be rebuilt before use. */
    var dirty: bool

    constructor ()
      ensures regions == [] && dirty
    {
      regions := [];
      dirty := true;
    }

    /** Marks the index as needing a rebuild; the stale regions are kept. */
    method Invalidate()
      modifies this`dirty
      ensures dirty
    {
      dirty := true;
    }

    /** Rescans `clusters`, sorts the runs longest first and marks the index clean. */
    method Rebuild(clusters: seq<ClusterState>)
      modifies this
      ensures !dirty
      ensures DescribesFreeSpace(clusters, regions)
    {
      var scanned := FreeRuns(clusters);
      regions := SortLongestFirst(scanned);
      SortedRunsDescribe(clusters, scanned, regions);
      dirty := false;
    }

    /** Worst-fit lookup: the start of the first listed run at least `size` long. */
    function FindRegion(size: nat): (r: Option<nat>)
      reads this
      ensures r.None? <==> forall k :: 0 <= k < |regions| ==> regions[k].1 < size
      ensures r.Some? ==> exists k :: 0 <= k < |regions| && regions[k].0 == r.value && regions[k].1 >= size
      ensures LongestFirst(regions) && r.Some? ==>
                r.value == regions[0].0 && forall k :: 0 <= k < |regions| ==> regions[k].1 <= regions[0].1
    {
      match FirstLongEnough(regions, size)
      case None => None
      case Some(k) =>
        FirstLongEnoughIsWorstFit(regions, size);
        Some(regions[k].0)
    }
  }
}
