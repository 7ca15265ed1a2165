/** A logical file as the list of clusters it occupies (src/app.rs:141-187). */
module FileFragments {
  import opened Wrappers

  /** Each cluster follows the previous one directly. */
  ghost predicate Contiguous(clusters: seq<nat>) {
    forall i :: 0 <= i < |clusters| - 1 ==> clusters[i + 1] == clusters[i] + 1
  }

  /** `check_fragmentation`: some adjacent pair of clusters is not consecutive. A file of at most
      one cluster is never fragmented. */
  function CheckFragmentation(clusters: seq<nat>): (r: bool)
    ensures r <==> exists i :: 0 <= i < |clusters| - 1 && clusters[i + 1] != clusters[i] + 1
    ensures |clusters| <= 1 ==> !r
  {
    if |clusters| <= 1 then false
    else if clusters[1] != clusters[0] + 1 then true
    else
      var r := CheckFragmentation(clusters[1..]);
      assert forall i :: 1 <= i < |clusters| ==> clusters[i] == clusters[1..][i - 1];
      r
  }

  /** A file is fragmented exactly when its clusters are not contiguous. */
  lemma FragmentedIffNotContiguous(clusters: seq<nat>)
    ensures CheckFragmentation(clusters) <==> !Contiguous(clusters)
  {
  }

  /** The run `start, start + 1, ..., start + n - 1`. */
  function Run(start: nat, n: nat): (r: seq<nat>)
    ensures |r| == n && forall i :: 0 <= i < n ==> r[i] == start + i
  {
    seq(n, i => start + i)
  }

  /** A file laid out in one run is never fragmented, and moving one cluster of a longer run
      elsewhere makes it fragmented. */
  lemma RunsAreNotFragmented(start: nat, n: nat, k: nat, elsewhere: nat)
    requires k < n && n >= 2 && elsewhere != start + k
    ensures !CheckFragmentation(Run(start, n))
    ensures CheckFragmentation(Run(start, n)[k := elsewhere])
  {
    var moved := Run(start, n)[k := elsewhere];
    if k + 1 < n {
      assert moved[k + 1] != moved[k] + 1;
    } else {
      assert moved[k - 1 + 1] != moved[k - 1] + 1;
    }
  }

  /** A file: its clusters, its size in clusters and whether it is fragmented. */
  datatype FileFragment = FileFragment(clusters: seq<nat>, size: nat, isFragmented: bool) {
    /** The first cluster of the file, if it has one. */
    function FirstCluster(): (r: Option<nat>)
      ensures r.Some? <==> |clusters| > 0
      ensures r.Some? ==> r.value == clusters[0]
    {
      if |clusters| > 0 then Some(clusters[0]) else None
    }

    /** The last cluster of the file, if it has one. */
    function LastCluster(): (r: Option<nat>)
      ensures r.Some? <==> |clusters| > 0
      ensures r.Some? ==> r.value == clusters[|clusters| - 1]
    {
      if |clusters| > 0 then Some(clusters[|clusters| - 1]) else None
    }
  }

  /** `FileFragment::new`: size and fragmentation are derived from the cluster list. */
  function NewFileFragment(clusters: seq<nat>): (f: FileFragment)
    ensures f.clusters == clusters && f.size == |clusters|
    ensures f.isFragmented <==> !Contiguous(clusters)
  {
    FragmentedIffNotContiguous(clusters);
    FileFragment(clusters, |clusters|, CheckFragmentation(clusters))
  }

  /** For a contiguous nonempty file the last cluster is `size - 1` past the first. */
  lemma {:induction false} ContiguousSpan(clusters: seq<nat>)
    requires |clusters| > 0 && !CheckFragmentation(clusters)
    ensures NewFileFragment(clusters).LastCluster().value
            == NewFileFragment(clusters).FirstCluster().value + NewFileFragment(clusters).size - 1
    decreases |clusters|
  {
    FragmentedIffNotContiguous(clusters);
    if |clusters| > 1 {
      var n := |clusters| - 1;
      assert clusters[..n][n - 1] == clusters[n - 1];
      FragmentedIffNotContiguous(clusters[..n]);
      ContiguousSpan(clusters[..n]);
    }
  }
}
