/** The randomized disk-layout generator of `App::new` and `App::restart` (src/app.rs:300-337,
    406-439). The random number generator is replaced by its draws, passed in as data. */
module Layout {
  import opened Arith
  import opened Models
  import opened Grid
  import opened Constants
  import Float32

  /** The random draws one generation consumes: one per swap of each Fisher-Yates shuffle. */
  datatype LayoutDraws = LayoutDraws(clusterDraws: seq<nat>, badDraws: seq<nat>)

  /** `(total as f32 * fraction) as usize` in exact arithmetic: the floor, and 0 for a negative
      product (the cast saturates). The fill a user passes in is scaled this way; the two built-in
      fractions are scaled with `f32` rounding, by `NumBad` and `DefaultPending`. */
  function ScaledCount(total: nat, fraction: real): nat {
    var x := total as real * fraction;
    if x <= 0.0 then 0 else x.Floor
  }

  /** In exact arithmetic, `total * 0.02` rounds down to `total / 50`. */
  lemma RealBadCount(total: nat)
    ensures ScaledCount(total, BAD_BLOCK_PERCENT) == total / 50
  {
    var x := total as real * BAD_BLOCK_PERCENT;
    var q := total / 50;
    assert total == q * 50 + total % 50;
    assert x == q as real + (total % 50) as real / 50.0;
    if x > 0.0 {
      assert x.Floor == q;
    }
  }

  /** In exact arithmetic, `total * 0.65` rounds down to `total * 13 / 20`. */
  lemma RealFillCount(total: nat)
    ensures ScaledCount(total, DEFAULT_FILL_PERCENT) == total * 13 / 20
  {
    var x := total as real * DEFAULT_FILL_PERCENT;
    var q := total * 13 / 20;
    assert total * 13 == q * 20 + (total * 13) % 20;
    assert x == q as real + ((total * 13) % 20) as real / 20.0;
    if x > 0.0 {
      assert x.Floor == q;
    }
  }

  /** The number of bad clusters a grid of `total` clusters gets: `total as f32 * 0.02` truncated.
      It is at most half the grid, so it never exceeds the clusters left for data. */
  function NumBad(total: nat): (r: nat)
    ensures r <= total - r
  {
    BadCountBound(total);
    Float32.ScaledCount(total, BAD_BLOCK_F32)
  }

  /** The two rounding steps of a scaled `f32` count, each within `2^-24` of its exact value. */
  lemma ScaledF32Parts(total: nat, f: Float32.Fraction, unit: nat) returns (t: nat, p: nat)
    requires unit == Float32.Pow2(f.scale)
    ensures t == Float32.RoundToF32(total) && p == Float32.F32Product(t, f.significand)
    ensures 0x100_0000 * Float32.Dist(t, total) <= total
    ensures 0x100_0000 * Float32.Dist(p, t * f.significand) <= t * f.significand
    ensures Float32.ScaledCount(total, f) == p / unit
  {
    t := Float32.RoundToF32(total);
    Float32.RoundRelativeError(total);
    p := Float32.F32Product(t, f.significand);
    var r := Float32.Truncate(p, f.scale);
    Float32.TruncateIsQuotient(p, f.scale);
    Float32.DivModUnique(p, unit, r, p - r * unit);
  }

  /** The truncated `f32` product `total * 0.02` is at most half the total. */
  lemma BadCountBound(total: nat)
    ensures 2 * Float32.ScaledCount(total, BAD_BLOCK_F32) <= total
  {
    Float32.Pow2Values();
    var t, p := ScaledF32Parts(total, BAD_BLOCK_F32, 0x2000_0000);
    var r := p / 0x2000_0000;
    assert r * 0x2000_0000 <= p;
    assert t <= 2 * total;
    assert p <= 2 * (t * 10737418);
  }

  /** In grids below `2^23` clusters the `f32` product agrees with exact arithmetic: `NumBad` is
      `total / 50`. */
  lemma NumBadIsScaledCount(total: nat)
    requires total < 0x80_0000
    ensures NumBad(total) == total / 50 == ScaledCount(total, BAD_BLOCK_PERCENT)
  {
    RealBadCount(total);
    Float32.Pow2Values();
    var p := ExactTotalProduct(total, BAD_BLOCK_F32, 0x2000_0000);
    assert NumBad(total) == p / 0x2000_0000;
    var q := total / 50;
    BadArith(total, p, q, total % 50);
    if total % 50 == 0 {
      BadMultipleExact(total, q);
    }
  }

  /** Below `2^24` the total is an `f32` as it stands, so a scaled count is the truncated product
      `p`, which lies within `2^-24` of the exact product. */
  lemma ExactTotalProduct(total: nat, f: Float32.Fraction, unit: nat) returns (p: nat)
    requires total < 0x100_0000 && unit == Float32.Pow2(f.scale)
    ensures p == Float32.RoundToF32(total * f.significand)
    ensures 0x100_0000 * p <= 0x100_0001 * (total * f.significand)
    ensures 0x100_0000 * p >= 0xFF_FFFF * (total * f.significand)
    ensures Float32.ScaledCount(total, f) == p / unit
  {
    var t;
    t, p := ScaledF32Parts(total, f, unit);
    Float32.RoundExact(total);
    var product := total * f.significand;
    assert t * f.significand == product;
    RelativeBounds(p, product);
  }

  /** A value within `n / 2^24` of `n`, as two linear bounds. */
  lemma RelativeBounds(p: nat, n: nat)
    requires 0x100_0000 * Float32.Dist(p, n) <= n
    ensures 0x100_0000 * p <= 0x100_0001 * n && 0x100_0000 * p >= 0xFF_FFFF * n
  {
  }

  /** The bounds on the truncated `0.02` product, as plain arithmetic. */
  lemma BadArith(total: nat, p: nat, q: nat, f: nat)
    requires total < 0x80_0000
    requires 0x100_0000 * p <= 0x100_0001 * (total * 10737418)
    requires 0x100_0000 * p >= 0xFF_FFFF * (total * 10737418)
    requires total == 50 * q + f && f < 50
    ensures p / 0x2000_0000 <= q
    ensures f != 0 ==> p / 0x2000_0000 >= q
  {
  }

  /** For a multiple of 50 the product `total * 10737418` lies `12 * total / 50` below a multiple
      of `2^29`, closer than half a unit of its `f32` spacing, so it rounds up to that multiple. */
  lemma BadMultipleExact(total: nat, q: nat)
    requires total < 0x80_0000 && total == 50 * q
    ensures Float32.RoundToF32(total * 10737418) == q * 0x2000_0000
  {
    var product := total * 10737418;
    var m := q * 0x2000_0000;
    assert product == m - 12 * q;
    Float32.Pow2Values();
    Float32.Pow2Add(24, 29);
    Float32.UlpDividesPow2Multiple(product, 29, q);
    Float32.RoundIsNearest(product, m);
  }

  /** The number of Pending clusters a restart asks for: `total as f32 * 0.65` truncated. The
      constant is stored just below 0.65, so the count can fall one short of the exact product;
      `DefaultPendingIsScaledCount` says when. */
  function DefaultPending(total: nat): (r: nat)
    ensures r <= total
  {
    FillCountBound(total);
    Float32.ScaledCount(total, DEFAULT_FILL_F32)
  }

  /** The truncated `f32` product `total * 0.65` is at most the total. */
  lemma FillCountBound(total: nat)
    ensures Float32.ScaledCount(total, DEFAULT_FILL_F32) <= total
  {
    Float32.Pow2Values();
    var t, p := ScaledF32Parts(total, DEFAULT_FILL_F32, 0x100_0000);
    var r := p / 0x100_0000;
    assert r * 0x100_0000 <= p;
    assert 0x100_0000 * t <= 0x100_0001 * total;
    assert 0x100_0000 * p <= 0x100_0001 * (t * 10905190);
  }

  /** In grids below `2^19` clusters the restart fill is the exact `total * 0.65` rounded down,
      except that when `total` is a multiple of 20, and the exact product a whole number, the
      `f32` product may fall just below it and the count be one less. */
  lemma DefaultPendingIsScaledCount(total: nat)
    requires total < 0x8_0000
    ensures total % 20 != 0 ==> DefaultPending(total) == ScaledCount(total, DEFAULT_FILL_PERCENT)
    ensures total % 20 == 0 ==>
      ScaledCount(total, DEFAULT_FILL_PERCENT) - 1 <= DefaultPending(total) <= ScaledCount(total, DEFAULT_FILL_PERCENT)
  {
    RealFillCount(total);
    Float32.Pow2Values();
    var p := ExactTotalProduct(total, DEFAULT_FILL_F32, 0x100_0000);
    FillArith(total, p, total * 13 / 20, total * 13 % 20);
    Coprime13(total);
  }

  /** The bounds on the truncated `0.65` product, as plain arithmetic. */
  lemma FillArith(total: nat, p: nat, q: nat, f: nat)
    requires total < 0x8_0000
    requires 0x100_0000 * p <= 0x100_0001 * (total * 10905190)
    requires 0x100_0000 * p >= 0xFF_FFFF * (total * 10905190)
    requires total * 13 == 20 * q + f && f < 20
    ensures p / 0x100_0000 <= q
    ensures f != 0 ==> p / 0x100_0000 >= q
    ensures p / 0x100_0000 + 1 >= q
  {
  }

  /** 13 and 20 share no factor. */
  lemma Coprime13(total: nat)
    ensures total % 20 == 0 <==> (total * 13) % 20 == 0
  {
  }

  /** A 180-cluster grid restarts with 116 Pending clusters where exact arithmetic gives 117. */
  lemma RestartFillFallsShort()
    ensures DefaultPending(180) == 116 && ScaledCount(180, DEFAULT_FILL_PERCENT) == 117
  {
    FillOf180();
    RealFillCount(180);
  }

  /** The default 78 by 16 grid has 24 bad clusters, as in exact arithmetic. */
  lemma DefaultGridBad()
    ensures NumBad(1248) == 24
  {
    NumBadIsScaledCount(1248);
  }

  /** The default 78 by 16 grid restarts with 811 Pending clusters, as in exact arithmetic. */
  lemma DefaultGridFill()
    ensures DefaultPending(1248) == 811
  {
    DefaultPendingIsScaledCount(1248);
    RealFillCount(1248);
  }

  /** The 180-cluster restart count: the exact product `180 * 0.65` is 117, but the `f32` product
      truncates to 116. */
  lemma FillOf180()
    ensures DefaultPending(180) == 116
  {
    Float32.Pow2Values();
    var p := ExactTotalProduct(180, DEFAULT_FILL_F32, 0x100_0000);
    assert p == Float32.RoundToF32(1962934200);
    Product180Rounding();
    assert DefaultPending(180) == 1962934144 / 0x100_0000;
  }

  /** `180 * 10905190` is 56 below `15335423 * 2^7`, a multiple of its `f32` spacing, so it rounds
      down to that multiple, which is just under `117 * 2^24`. */
  lemma Product180Rounding()
    ensures Float32.RoundToF32(1962934200) == 1962934144
  {
    Float32.Pow2Values();
    assert Float32.Pow2(7) == 128;
    Float32.Pow2Add(7, 24);
    Float32.RoundToMultiple(1962934200, 7, 15335423);
  }

  function Repeat(x: ClusterState, n: nat): (r: seq<ClusterState>)
    ensures |r| == n && forall i :: 0 <= i < n ==> r[i] == x
    decreases n
  {
    if n == 0 then [] else Repeat(x, n - 1) + [x]
  }

  /** `n` entries `x` and nothing else. */
  function Copies(x: ClusterState, n: nat): multiset<ClusterState> {
    multiset{}[x := n]
  }

  /** `n` copies of `x` hold `x` exactly `n` times and nothing else. */
  lemma {:induction false} RepeatMultiset(x: ClusterState, n: nat)
    ensures multiset(Repeat(x, n)) == Copies(x, n)
    decreases n
  {
    if n > 0 {
      RepeatMultiset(x, n - 1);
      assert multiset(Repeat(x, n)) == multiset(Repeat(x, n - 1)) + multiset{x};
      OneMoreCopy(x, n - 1);
    }
  }

  lemma OneMoreCopy(x: ClusterState, n: nat)
    ensures Copies(x, n) + multiset{x} == Copies(x, n + 1)
  {
  }

  /** The number of Pending entries pushed before the two seeds (`num_pending.saturating_sub(2)`). */
  function PendingSeeds(numPending: nat): nat {
    if numPending >= 2 then numPending - 2 else 0
  }

  /** The sequence built before shuffling: the Pending entries, one Writing and one Reading seed,
      then Unused padding up to `total - numBad` entries. */
  function Seeded(total: nat, numPending: nat, numBad: nat): (r: seq<ClusterState>)
    requires numBad <= total
  {
    var head := Repeat(Pending, PendingSeeds(numPending)) + [Writing, Reading];
    head + Repeat(Unused, if |head| < total - numBad then total - numBad - |head| else 0)
  }

  /** Swaps the entries at `i` and `j`. */
  function Swap<T>(s: seq<T>, i: nat, j: nat): (r: seq<T>)
    requires i < |s| && j < |s|
    ensures |r| == |s| && r[i] == s[j] && r[j] == s[i]
    ensures forall k :: 0 <= k < |s| && k != i && k != j ==> r[k] == s[k]
  {
    s[i := s[j]][j := s[i]]
  }

  /** A swap only reorders. */
  lemma SwapPermutes<T>(s: seq<T>, i: nat, j: nat)
    requires i < |s| && j < |s|
    ensures multiset(Swap(s, i, j)) == multiset(s)
  {
  }

  /** The Fisher-Yates steps for positions `i` down to 1: position `i` is swapped with the draw
      reduced modulo `i + 1`; a missing draw leaves the position in place. */
  function ShuffleDown<T>(s: seq<T>, draws: seq<nat>, i: nat): (r: seq<T>)
    requires i < |s| || i == 0
    ensures |r| == |s|
    decreases i
  {
    if i == 0 then s
    else
      var k := |s| - 1 - i;
      var j := if k < |draws| then Remainder(draws[k], i + 1) else i;
      ShuffleDown(Swap(s, i, j), draws, i - 1)
  }

  /** `shuffle`: a permutation of `s` chosen by `draws`. */
  function Shuffle<T>(s: seq<T>, draws: seq<nat>): (r: seq<T>)
    ensures |r| == |s|
  {
    if |s| == 0 then s else ShuffleDown(s, draws, |s| - 1)
  }

  /** Each step of the shuffle only reorders. */
  lemma {:induction false} ShuffleDownPermutes<T>(s: seq<T>, draws: seq<nat>, i: nat)
    requires i < |s| || i == 0
    ensures multiset(ShuffleDown(s, draws, i)) == multiset(s)
    decreases i
  {
    if i > 0 {
      var k := |s| - 1 - i;
      var j := if k < |draws| then Remainder(draws[k], i + 1) else i;
      SwapPermutes(s, i, j);
      ShuffleDownPermutes(Swap(s, i, j), draws, i - 1);
    }
  }

  /** The shuffle is a permutation. */
  lemma ShufflePermutes<T>(s: seq<T>, draws: seq<nat>)
    ensures multiset(Shuffle(s, draws)) == multiset(s)
  {
    if |s| > 0 {
      ShuffleDownPermutes(s, draws, |s| - 1);
    }
  }

  /** `0..n` as a sequence. */
  function Range(n: nat): (r: seq<nat>)
    ensures |r| == n && forall i :: 0 <= i < n ==> r[i] == i
  {
    seq(n, i => i)
  }

  /** `insert(pos.min(len), Bad)`. */
  function InsertBad(s: seq<ClusterState>, pos: nat): (r: seq<ClusterState>)
    ensures |r| == |s| + 1
  {
    var p := if pos < |s| then pos else |s|;
    s[..p] + [Bad] + s[p..]
  }

  /** Inserting adds one Bad entry and keeps all others. */
  lemma InsertBadMultiset(s: seq<ClusterState>, pos: nat)
    ensures multiset(InsertBad(s, pos)) == multiset(s) + multiset{Bad}
  {
    var p := if pos < |s| then pos else |s|;
    assert s == s[..p] + s[p..];
    assert multiset(s) == multiset(s[..p]) + multiset(s[p..]);
    assert InsertBad(s, pos) == s[..p] + [Bad] + s[p..];
    assert multiset(InsertBad(s, pos)) == multiset(s[..p]) + multiset{Bad} + multiset(s[p..]);
  }

  /** Inserts a Bad entry at each of `positions`, in order. */
  function InsertBads(s: seq<ClusterState>, positions: seq<nat>): (r: seq<ClusterState>)
    ensures |r| == |s| + |positions|
    decreases |positions|
  {
    if positions == [] then s
    else InsertBad(InsertBads(s, positions[..|positions| - 1]), positions[|positions| - 1])
  }

  /** The insertions add one Bad entry per position and keep all others. */
  lemma {:induction false} InsertBadsMultiset(s: seq<ClusterState>, positions: seq<nat>)
    ensures multiset(InsertBads(s, positions)) == multiset(s) + Copies(Bad, |positions|)
    decreases |positions|
  {
    if positions != [] {
      var n := |positions| - 1;
      var before := InsertBads(s, positions[..n]);
      assert InsertBads(s, positions) == InsertBad(before, positions[n]);
      InsertBadsMultiset(s, positions[..n]);
      InsertBadMultiset(before, positions[n]);
      OneMoreBad(multiset(s), multiset(before), multiset(InsertBads(s, positions)), n);
    }
  }

  /** Adding one Bad entry to a multiset holding `n` extra Bad entries gives `n + 1` extra. */
  lemma OneMoreBad(base: multiset<ClusterState>, a: multiset<ClusterState>, b: multiset<ClusterState>, n: nat)
    requires a == base + Copies(Bad, n) && b == a + multiset{Bad}
    ensures b == base + Copies(Bad, n + 1)
  {
  }

  /** The last steps of generation: truncate to `total` entries and make cluster 0 Unmovable. */
  function TruncateAndPin(s: seq<ClusterState>, total: nat): (r: seq<ClusterState>)
    requires |s| >= total
    ensures |r| == total
    ensures total > 0 ==> r[0] == Unmovable
  {
    var t := s[..total];
    if t == [] then t else t[0 := Unmovable]
  }

  /** Truncating and pinning never adds a state other than Unmovable, and pins exactly one
      Unmovable cluster when the input held none. */
  lemma TruncateAndPinCounts(s: seq<ClusterState>, total: nat)
    requires |s| >= total
    ensures forall x :: x != Unmovable ==> multiset(TruncateAndPin(s, total))[x] <= multiset(s)[x]
    ensures total > 0 && multiset(s)[Unmovable] == 0 ==> multiset(TruncateAndPin(s, total))[Unmovable] == 1
  {
    var t := s[..total];
    assert s == t + s[total..];
  }

  /** The positions that receive a Bad entry: the first `numBad` of a shuffled `0..len` (`take`). */
  function BadPositions(len: nat, numBad: nat, draws: seq<nat>): (r: seq<nat>)
    ensures |r| == Min(numBad, len)
  {
    var all := Shuffle(Range(len), draws);
    all[..Min(numBad, |all|)]
  }

  /** The generated grid for `numPending` clusters of data: seed, shuffle, insert Bad entries,
      truncate and pin cluster 0. */
  function GeneratedLayout(total: nat, numPending: nat, draws: LayoutDraws): (r: seq<ClusterState>)
    ensures |r| == total
  {
    var numBad := NumBad(total);
    var shuffled := Shuffle(Seeded(total, numPending, numBad), draws.clusterDraws);
    TruncateAndPin(InsertBads(shuffled, BadPositions(|shuffled|, numBad, draws.badDraws)), total)
  }

  /** The seeded sequence is long enough to truncate to `total - numBad` and holds both seeds. */
  lemma SeededLength(total: nat, numPending: nat, numBad: nat)
    requires numBad <= total
    ensures |Seeded(total, numPending, numBad)| >= total - numBad
    ensures |Seeded(total, numPending, numBad)| >= 2
  {
  }

  /** The seeded sequence as a multiset: the Pending seeds, one Writing, one Reading and the
      Unused padding. */
  lemma SeededMultiset(total: nat, numPending: nat, numBad: nat) returns (pad: nat)
    requires numBad <= total
    ensures multiset(Seeded(total, numPending, numBad))
            == Copies(Pending, PendingSeeds(numPending)) + multiset{Writing, Reading} + Copies(Unused, pad)
  {
    var seeds := Repeat(Pending, PendingSeeds(numPending));
    var head := seeds + [Writing, Reading];
    pad := if |head| < total - numBad then total - numBad - |head| else 0;
    assert Seeded(total, numPending, numBad) == seeds + [Writing, Reading] + Repeat(Unused, pad);
    RepeatMultiset(Pending, PendingSeeds(numPending));
    RepeatMultiset(Unused, pad);
  }

  /** What the seeded sequence holds: the Pending seeds, one Writing, one Reading, Unused padding. */
  lemma SeededCounts(total: nat, numPending: nat, numBad: nat)
    requires numBad <= total
    ensures multiset(Seeded(total, numPending, numBad))[Pending] == PendingSeeds(numPending)
    ensures multiset(Seeded(total, numPending, numBad))[Writing] == 1
    ensures multiset(Seeded(total, numPending, numBad))[Reading] == 1
    ensures multiset(Seeded(total, numPending, numBad))[Used] == 0
    ensures multiset(Seeded(total, numPending, numBad))[Bad] == 0
    ensures multiset(Seeded(total, numPending, numBad))[Unmovable] == 0
  {
    var pad := SeededMultiset(total, numPending, numBad);
    SeedCounts(multiset(Seeded(total, numPending, numBad)), PendingSeeds(numPending), pad);
  }

  lemma SeedCounts(m: multiset<ClusterState>, k: nat, pad: nat)
    requires m == Copies(Pending, k) + multiset{Writing, Reading} + Copies(Unused, pad)
    ensures m[Pending] == k && m[Writing] == 1 && m[Reading] == 1
    ensures m[Used] == 0 && m[Bad] == 0 && m[Unmovable] == 0
  {
  }

  /** The generated grid is the truncation of a sequence holding the seeds plus at most
      `NumBad(total)` Bad entries. */
  lemma {:induction false} LayoutBeforeTruncation(total: nat, numPending: nat, draws: LayoutDraws)
    returns (withBad: seq<ClusterState>)
    ensures |withBad| >= total
    ensures GeneratedLayout(total, numPending, draws) == TruncateAndPin(withBad, total)
    ensures multiset(withBad)[Bad] <= NumBad(total)
    ensures multiset(withBad)[Pending] == PendingSeeds(numPending)
    ensures multiset(withBad)[Writing] == 1 && multiset(withBad)[Reading] == 1
    ensures multiset(withBad)[Used] == 0 && multiset(withBad)[Unmovable] == 0
  {
    var numBad := NumBad(total);
    var seeded := Seeded(total, numPending, numBad);
    SeededLength(total, numPending, numBad);
    SeededCounts(total, numPending, numBad);
    var shuffled := Shuffle(seeded, draws.clusterDraws);
    ShufflePermutes(seeded, draws.clusterDraws);
    var positions := BadPositions(|shuffled|, numBad, draws.badDraws);
    withBad := InsertBads(shuffled, positions);
    InsertBadsMultiset(shuffled, positions);
    var bads := Copies(Bad, |positions|);
    assert multiset(withBad) == multiset(seeded) + bads;
    assert bads[Bad] <= numBad;
    assert bads[Pending] == 0 && bads[Writing] == 0 && bads[Reading] == 0;
    assert bads[Used] == 0 && bads[Unmovable] == 0;
  }

  /** Every generated grid has exactly `total` clusters and, when nonempty, exactly one Unmovable
      cluster, at index 0. */
  lemma LayoutShape(total: nat, numPending: nat, draws: LayoutDraws)
    ensures |GeneratedLayout(total, numPending, draws)| == total
    ensures total > 0 ==> GeneratedLayout(total, numPending, draws)[0] == Unmovable
    ensures total > 0 ==> Count(GeneratedLayout(total, numPending, draws), Unmovable) == 1
  {
    var withBad := LayoutBeforeTruncation(total, numPending, draws);
    TruncateAndPinCounts(withBad, total);
    CountIsMultiplicity(GeneratedLayout(total, numPending, draws), Unmovable);
  }

  /** A generated grid has at most `NumBad(total)` Bad clusters: inserting before truncating can
      push some of them off the end, never add more. */
  lemma LayoutBadBound(total: nat, numPending: nat, draws: LayoutDraws)
    ensures Count(GeneratedLayout(total, numPending, draws), Bad) <= NumBad(total)
  {
    var withBad := LayoutBeforeTruncation(total, numPending, draws);
    TruncateAndPinCounts(withBad, total);
    CountIsMultiplicity(GeneratedLayout(total, numPending, draws), Bad);
  }

  /** A generated grid holds no Used cluster, at most the seeded number of Pending clusters and at
      most one Writing and one Reading seed. */
  lemma LayoutSeedBounds(total: nat, numPending: nat, draws: LayoutDraws)
    ensures Count(GeneratedLayout(total, numPending, draws), Used) == 0
    ensures Count(GeneratedLayout(total, numPending, draws), Pending) <= PendingSeeds(numPending)
    ensures Count(GeneratedLayout(total, numPending, draws), Writing) <= 1
    ensures Count(GeneratedLayout(total, numPending, draws), Reading) <= 1
  {
    var withBad := LayoutBeforeTruncation(total, numPending, draws);
    TruncateAndPinCounts(withBad, total);
    var c := GeneratedLayout(total, numPending, draws);
    CountIsMultiplicity(c, Used);
    CountIsMultiplicity(c, Pending);
    CountIsMultiplicity(c, Writing);
    CountIsMultiplicity(c, Reading);
  }

  /** The pushing phase of generation: the Pending seeds, the Writing and Reading seeds, then
      Unused padding up to `total - numBad` entries. */
  method PushSeeds(total: nat, numPending: nat, numBad: nat) returns (clusters: seq<ClusterState>)
    requires numBad <= total
    ensures clusters == Seeded(total, numPending, numBad)
  {
    clusters := [];
    var k := 0;
    while k < PendingSeeds(numPending)
      invariant k <= PendingSeeds(numPending)
      invariant clusters == Repeat(Pending, k)
    {
      clusters := clusters + [Pending];
      k := k + 1;
    }
    clusters := clusters + [Writing];
    clusters := clusters + [Reading];
    ghost var head := clusters;
    assert head == Repeat(Pending, PendingSeeds(numPending)) + [Writing, Reading];
    while |clusters| < total - numBad
      invariant |clusters| >= |head|
      invariant |clusters| == |head| || |clusters| <= total - numBad
      invariant clusters == head + Repeat(Unused, |clusters| - |head|)
    {
      clusters := clusters + [Unused];
    }
  }

  /** The bad-block phase: inserts a Bad entry at each of the first `numBad` shuffled positions. */
  method InsertBadEntries(shuffled: seq<ClusterState>, numBad: nat, badDraws: seq<nat>)
    returns (clusters: seq<ClusterState>)
    ensures clusters == InsertBads(shuffled, BadPositions(|shuffled|, numBad, badDraws))
  {
    clusters := shuffled;
    var badPositions := Shuffle(Range(|shuffled|), badDraws);
    var n := 0;
    while n < |badPositions| && n < numBad
      invariant n <= |badPositions| && n <= numBad
      invariant clusters == InsertBads(shuffled, badPositions[..n])
    {
      var pos := badPositions[n];
      var p := if pos < |clusters| then pos else |clusters|;
      clusters := clusters[..p] + [Bad] + clusters[p..];
      assert badPositions[..n + 1][..n] == badPositions[..n];
      n := n + 1;
    }
    assert badPositions[..n] == BadPositions(|shuffled|, numBad, badDraws);
  }

  /** The generation as the source runs it, pushing, shuffling, inserting and truncating;
      `numPending` is the caller's scaled fill count. */
  method GenerateClusters(total: nat, numPending: nat, draws: LayoutDraws) returns (clusters: seq<ClusterState>)
    ensures clusters == GeneratedLayout(total, numPending, draws)
  {
    var numBad := NumBad(total);
    clusters := PushSeeds(total, numPending, numBad);
    SeededLength(total, numPending, numBad);
    clusters := Shuffle(clusters, draws.clusterDraws);
    clusters := InsertBadEntries(clusters, numBad, draws.badDraws);
    clusters := TruncatePin(clusters, total);
  }

  /** The final phase: `truncate(total)`, then cluster 0 becomes Unmovable when there is one. */
  method TruncatePin(s: seq<ClusterState>, total: nat) returns (clusters: seq<ClusterState>)
    requires |s| >= total
    ensures clusters == TruncateAndPin(s, total)
  {
    clusters := s;
    if |clusters| > total {
      clusters := clusters[..total];
    }
    if |clusters| > 0 {
      clusters := clusters[0 := Unmovable];
    }
  }
}
