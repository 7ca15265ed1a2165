/** The tick-driven defragmentation engine of `App::update` (src/app.rs:615-774) as a pure state
    transition. The wall clock, the random choices and the audio device are outside the model:
    whether the current operation's end time has passed, the drawn Pending index, the file size, the
    base duration and the file name arrive as a `TickInput`, and the sounds the tick asks for are
    returned as cues. */
module Engine {
  import opened Wrappers
  import opened Arith
  import opened Models
  import opened Grid
  import opened Constants
  import opened Layout

  /** Where the file in flight is in its read-write cycle (src/app.rs:191-198). */
  datatype FileDefragPhase = FileReading(progress: nat) | FileWriting(progress: nat) | FileCompleted

  /** The sounds a tick asks the audio engine for. */
  datatype Cue = SeekCue | ReadCue | WriteCue | StopAllCue

  /** The end of the current disk operation: at the moment it was set (`Instant::now()`, already
      passed at the next tick), or a duration later. */
  datatype OpEnd = EndsNow | EndsAfter(durationMs: nat)

  /** What the engine reads but never changes: the grid size and the drive's throughput. */
  datatype Config = Config(width: nat, height: nat, iops: nat) {
    function Total(): nat { Area(width, height) }
  }

  /** The outside world for one tick. `deadlinePassed` answers `Instant::now() >= end`;
      `pendingPick` chooses among the Pending clusters; `fileSize` and `baseDurationMs` are the
      `gen_range` draws; `filename` is the file provider's pick; `layout` drives a restart. */
  datatype TickInput = TickInput(
    deadlinePassed: bool,
    pendingPick: nat,
    fileSize: nat,
    baseDurationMs: nat,
    filename: Option<string>,
    layout: LayoutDraws)

  /** The simulation state `update` changes. */
  datatype Sim = Sim(
    running: bool,
    paused: bool,
    clusters: seq<ClusterState>,
    stats: DefragStats,
    phase: DefragPhase,
    animationStep: nat,
    readPos: Option<nat>,
    writePos: Option<nat>,
    inFlight: Option<FileDefragPhase>,
    filename: Option<string>,
    opEnd: Option<OpEnd>,
    demoMode: bool)

  /** The next state and the sounds requested on the way. */
  datatype Step = Step(next: Sim, cues: seq<Cue>)

  /** The grid has `width * height` clusters and both cursors point into it; the source relies on
      this when it indexes the grid through a cursor. */
  predicate Shaped(s: Sim, cfg: Config) {
    && |s.clusters| == cfg.Total()
    && (s.readPos.Some? ==> s.readPos.value < |s.clusters|)
    && (s.writePos.Some? ==> s.writePos.value < |s.clusters|)
  }

  /** One unit of work is owed while a file is being read or written. */
  function Owed(s: Sim): nat {
    if s.inFlight.Some? && !s.inFlight.value.FileCompleted? then 1 else 0
  }

  /** The engine's invariant: the grid is shaped, and the clusters already defragmented, those
      still Pending and the one in flight never add up to more than the run's initial Pending
      count. The total to defragment counts the Writing and Reading seeds as two more clusters,
      but no step ever commits a seed, so those two units are never reached. */
  predicate Inv(s: Sim, cfg: Config) {
    && Shaped(s, cfg)
    && s.stats.clustersDefragged + Count(s.clusters, Pending) + Owed(s) + 2 <= s.stats.totalToDefrag
  }

  /** `current_op_end_time.map_or(true, |t| now >= t)`. */
  function Due(opEnd: Option<OpEnd>, deadlinePassed: bool): (r: bool)
    ensures opEnd.None? || opEnd == Some(EndsNow) ==> r
    ensures opEnd.Some? && opEnd.value.EndsAfter? ==> r == deadlinePassed
  {
    match opEnd
    case None => true
    case Some(EndsNow) => true
    case Some(EndsAfter(_)) => deadlinePassed
  }

  /** Marks up to `n` clusters from `start` as Writing, skipping positions past the end. */
  function MarkWriting(c: seq<ClusterState>, start: nat, n: nat): (r: seq<ClusterState>)
    ensures |r| == |c|
    ensures forall j :: 0 <= j < |c| ==> r[j] == (if start <= j < start + n then Writing else c[j])
  {
    seq(|c|, j requires 0 <= j < |c| => if start <= j < start + n then Writing else c[j])
  }

  /** The marking loop of the file start: up to `n` clusters from `start` become Writing, and
      positions past the end are skipped. */
  method MarkWritingRun(c: seq<ClusterState>, start: nat, n: nat) returns (marked: seq<ClusterState>)
    ensures marked == MarkWriting(c, start, n)
  {
    marked := c;
    var i := 0;
    while i < n
      invariant i <= n
      invariant marked == MarkWriting(c, start, i)
    {
      if start + i < |marked| {
        marked := marked[start + i := Writing];
      }
      i := i + 1;
    }
  }

  /** A new state that freshly generated `clusters` start from (`App::new`, src/app.rs:345-386). */
  function Initial(clusters: seq<ClusterState>): (s: Sim)
    ensures s.stats.totalToDefrag == Count(clusters, Pending) + 2 && s.stats.clustersDefragged == 0
    ensures s.phase == Initializing && s.animationStep == 0 && s.running && !s.paused
  {
    Sim(true, false, clusters, DefragStats(Count(clusters, Pending) + 2, 0), Initializing, 0,
        None, None, None, None, None, false)
  }

  /** `restart` (src/app.rs:404-459): a new layout at the default fill, fresh statistics, phase
      Initializing, cursors, file and timer cleared, unpaused. Running and demo mode are kept. */
  function Restarted(s: Sim, cfg: Config, draws: LayoutDraws): (r: Sim)
    ensures |r.clusters| == cfg.Total()
    ensures r.stats == DefragStats(Count(r.clusters, Pending) + 2, 0)
    ensures r.phase == Initializing && r.animationStep == 0 && !r.paused
    ensures r.readPos == None && r.writePos == None && r.inFlight == None
    ensures r.filename == None && r.opEnd == None
    ensures r.running == s.running && r.demoMode == s.demoMode
    ensures r.clusters == GeneratedLayout(cfg.Total(), DefaultPending(cfg.Total()), draws)
  {
    var c := GeneratedLayout(cfg.Total(), DefaultPending(cfg.Total()), draws);
    assert |c| == cfg.Total();
    var r := Initial(c).(running := s.running, demoMode := s.demoMode);
    assert r.clusters == c && r.stats == DefragStats(Count(c, Pending) + 2, 0);
    r
  }

  /** The Defragmenting branch with no file in flight (src/app.rs:654-706): draw a Pending cluster
      and start reading it, then place the file; with nothing Pending left, finish. `s` already
      has its step advanced. */
  function StartNext(s: Sim, cfg: Config, inp: TickInput): (r: Step)
    requires Shaped(s, cfg)
    ensures Shaped(r.next, cfg)
  {
    var pending := PendingIndices(s.clusters);
    if |pending| == 0 then
      Step(s.(phase := Finished, filename := None, readPos := None, writePos := None), [])
    else
      var idx := pending[Remainder(inp.pendingPick, |pending|)];
      Place(Started(s, cfg, inp, idx), cfg, idx, inp.fileSize)
  }

  /** The state once the drawn cluster `idx` is being read under the drawn name, with the read
      operation's end set from the drive's speed. */
  function Started(s: Sim, cfg: Config, inp: TickInput, idx: nat): (t: Sim)
    requires idx < |s.clusters|
    ensures t.clusters == s.clusters[idx := Reading] && t.readPos == Some(idx)
  {
    var duration := Quotient(inp.baseDurationMs, MaxOne(cfg.iops));
    s.(filename := inp.filename, opEnd := Some(EndsAfter(duration)),
       clusters := s.clusters[idx := Reading], readPos := Some(idx))
  }

  /** The placement of a started file (src/app.rs:676-705): the first run of `size` Unused
      clusters receives the Writing marks, at most one per I/O operation of the drive; when no run
      fits, the drawn cluster `idx` is committed in place at once. */
  function Place(t: Sim, cfg: Config, idx: nat, size: nat): (r: Step)
    requires Shaped(t, cfg) && idx < |t.clusters|
    ensures Shaped(r.next, cfg)
  {
    match FirstFit(t.clusters, size)
    case Some(start) =>
      Step(t.(clusters := MarkWriting(t.clusters, start, Min(size, MaxOne(cfg.iops))),
              writePos := Some(start), inFlight := Some(FileReading(0))),
           [SeekCue])
    case None =>
      Step(t.(clusters := t.clusters[idx := Used],
              stats := t.stats.(clustersDefragged := t.stats.clustersDefragged + 1),
              readPos := None, filename := None, opEnd := Some(EndsNow)),
           [SeekCue, WriteCue])
  }

  /** The Defragmenting branch with a file in flight (src/app.rs:707-748): reading frees the read
      cluster, writing commits the cluster at the write cursor, completion clears the file. */
  function AdvanceFile(s: Sim): (r: Step)
    requires s.inFlight.Some?
    requires s.readPos.Some? ==> s.readPos.value < |s.clusters|
    requires s.writePos.Some? ==> s.writePos.value < |s.clusters|
    ensures |r.next.clusters| == |s.clusters|
    ensures r.next.readPos == s.readPos && r.next.writePos == s.writePos
  {
    match s.inFlight.value
    case FileReading(_) =>
      var freed := s.readPos.Some? && s.clusters[s.readPos.value] == Reading;
      Step(s.(clusters := if freed then s.clusters[s.readPos.value := Unused] else s.clusters,
              inFlight := Some(FileWriting(0))),
           if freed then [ReadCue] else [])
    case FileWriting(_) =>
      if s.writePos.Some? && s.clusters[s.writePos.value] == Writing then
        Step(s.(clusters := s.clusters[s.writePos.value := Used],
                stats := s.stats.(clustersDefragged := s.stats.clustersDefragged + 1),
                inFlight := Some(FileCompleted)),
             [WriteCue])
      else
        Step(s.(inFlight := Some(FileCompleted)), [])
    case FileCompleted =>
      Step(s.(inFlight := None, filename := None, opEnd := Some(EndsNow)), [])
  }

  /** Whether this tick is the demo-mode restart out of Finished. */
  predicate RestartsNow(s: Sim) {
    s.phase == Finished && s.demoMode && s.animationStep + 1 > FINISH_WAIT_TICKS / 2
  }

  /** The Initializing branch (src/app.rs:625-630); `t` has its step advanced. */
  function InitializingTick(t: Sim): Step {
    if t.animationStep > INIT_DURATION_TICKS then Step(t.(phase := Analyzing, animationStep := 0), [])
    else Step(t, [])
  }

  /** The Analyzing branch (src/app.rs:631-648): the scan cursor sweeps five clusters a tick, with a
      seek sound every third tick, until the sweep has run past a fifth of the grid plus ten. */
  function AnalyzingTick(t: Sim, cfg: Config): (r: Step)
    requires Shaped(t, cfg) && cfg.Total() > 0
    ensures Shaped(r.next, cfg)
  {
    var total := cfg.Total();
    var cues := if t.animationStep % 3 == 0 then [SeekCue] else [];
    if t.animationStep > total / 5 + 10 then
      Step(t.(readPos := None, phase := Defragmenting, animationStep := 0, opEnd := Some(EndsNow)), cues)
    else
      Step(t.(readPos := Some(Min(t.animationStep * 5, total - 1))), cues)
  }

  /** The Defragmenting branch (src/app.rs:649-765): nothing happens until the current operation
      is due; then the next file starts or the one in flight advances. */
  function DefragmentingTick(t: Sim, cfg: Config, inp: TickInput): (r: Step)
    requires Shaped(t, cfg)
    ensures Shaped(r.next, cfg)
  {
    if !Due(t.opEnd, inp.deadlinePassed) then Step(t, [])
    else if t.inFlight.None? then StartNext(t, cfg, inp)
    else AdvanceFile(t)
  }

  /** The Finished branch (src/app.rs:766-772): after more than 25 ticks a demo restarts, after more
      than 50 a normal run stops. */
  function FinishedTick(t: Sim, cfg: Config, draws: LayoutDraws): (r: Step)
    requires Shaped(t, cfg)
    ensures Shaped(r.next, cfg)
  {
    if t.demoMode && t.animationStep > FINISH_WAIT_TICKS / 2 then Step(Restarted(t, cfg, draws), [])
    else if !t.demoMode && t.animationStep > FINISH_WAIT_TICKS then Step(t.(running := false), [])
    else Step(t, [])
  }

  /** The state with its step counter advanced, as every tick begins. */
  function Advanced(s: Sim): Sim {
    s.(animationStep := s.animationStep + 1)
  }

  /** One call of `update`: the step counter advances first; then the current phase acts. */
  function Tick(s: Sim, cfg: Config, inp: TickInput): (r: Step)
    requires Shaped(s, cfg)
    requires s.phase == Analyzing ==> cfg.Total() > 0
    ensures Shaped(r.next, cfg)
  {
    var t := Advanced(s);
    match s.phase
    case Initializing => InitializingTick(t)
    case Analyzing => AnalyzingTick(t, cfg)
    case Defragmenting => DefragmentingTick(t, cfg, inp)
    case Finished => FinishedTick(t, cfg, inp.layout)
  }

  /** `toggle_pause` (src/app.rs:389-398): flips `paused` in Analyzing and Defragmenting only, and
      silences the audio when it pauses. */
  function TogglePause(s: Sim): Step {
    if s.phase == Defragmenting || s.phase == Analyzing then
      Step(s.(paused := !s.paused), if !s.paused then [StopAllCue] else [])
    else
      Step(s, [])
  }

  /** Successive ticks, one per input. */
  function Run(s: Sim, cfg: Config, inputs: seq<TickInput>): (r: Sim)
    requires Shaped(s, cfg) && cfg.Total() > 0
    ensures Shaped(r, cfg)
    decreases |inputs|
  {
    if inputs == [] then s else Run(Tick(s, cfg, inputs[0]).next, cfg, inputs[1..])
  }

  // -- The accounting invariant -------------------------------------------------------------

  /** Turning only Unused clusters into Writing leaves the Pending count alone. */
  lemma MarkWritingKeepsPending(c: seq<ClusterState>, start: nat, size: nat, n: nat)
    requires UnusedWindow(c, start, size) && n <= size
    ensures Count(MarkWriting(c, start, n), Pending) == Count(c, Pending)
    ensures forall j :: 0 <= j < |c| && MarkWriting(c, start, n)[j] != c[j] ==> c[j] == Unused
  {
    var m := MarkWriting(c, start, n);
    CountNotCreated(c, m, Pending);
    CountNotCreated(m, c, Pending);
  }

  /** Starting the next file keeps the invariant: the drawn cluster leaves Pending and is either
      owed (a run fits) or counted as defragmented (none fits). */
  lemma StartNextKeepsInv(s: Sim, cfg: Config, inp: TickInput)
    requires Inv(s, cfg) && s.inFlight.None?
    ensures Inv(StartNext(s, cfg, inp).next, cfg)
  {
    var pending := PendingIndices(s.clusters);
    if |pending| > 0 {
      var idx := pending[Remainder(inp.pendingPick, |pending|)];
      var c := s.clusters[idx := Reading];
      CountAfterSet(s.clusters, idx, Reading, Pending);
      match FirstFit(c, inp.fileSize)
      case Some(start) =>
        MarkWritingKeepsPending(c, start, inp.fileSize, Min(inp.fileSize, MaxOne(cfg.iops)));
      case None =>
        CountAfterSet(c, idx, Used, Pending);
    }
  }

  /** Advancing the file in flight keeps the invariant: a write commits at most the one owed unit. */
  lemma AdvanceFileKeepsInv(s: Sim, cfg: Config)
    requires Inv(s, cfg) && s.inFlight.Some?
    ensures Inv(AdvanceFile(s).next, cfg)
  {
    match s.inFlight.value
    case FileReading(_) =>
      if s.readPos.Some? && s.clusters[s.readPos.value] == Reading {
        CountAfterSet(s.clusters, s.readPos.value, Unused, Pending);
      }
    case FileWriting(_) =>
      if s.writePos.Some? && s.clusters[s.writePos.value] == Writing {
        CountAfterSet(s.clusters, s.writePos.value, Used, Pending);
      }
    case FileCompleted =>
  }

  /** Every tick keeps the invariant, so `clusters_defragged` never exceeds the run's initial Pending
      count, `total_to_defrag - 2`. */
  lemma TickKeepsInv(s: Sim, cfg: Config, inp: TickInput)
    requires Inv(s, cfg) && (s.phase == Analyzing ==> cfg.Total() > 0)
    ensures Inv(Tick(s, cfg, inp).next, cfg)
    ensures Tick(s, cfg, inp).next.stats.clustersDefragged + 2 <= Tick(s, cfg, inp).next.stats.totalToDefrag
  {
    var t := Advanced(s);
    match s.phase
    case Initializing =>
      assert Tick(s, cfg, inp) == InitializingTick(t);
      SameAccountingKeepsInv(t, InitializingTick(t).next, cfg);
    case Analyzing =>
      assert Tick(s, cfg, inp) == AnalyzingTick(t, cfg);
      SameAccountingKeepsInv(t, AnalyzingTick(t, cfg).next, cfg);
    case Defragmenting =>
      assert Tick(s, cfg, inp) == DefragmentingTick(t, cfg, inp);
      DefragmentingKeepsInv(t, cfg, inp);
    case Finished =>
      assert Tick(s, cfg, inp) == FinishedTick(t, cfg, inp.layout);
      FinishedKeepsInv(t, cfg, inp.layout);
  }

  /** A step that leaves the grid, the statistics and the file in flight alone keeps the invariant. */
  lemma SameAccountingKeepsInv(t: Sim, r: Sim, cfg: Config)
    requires Inv(t, cfg) && Shaped(r, cfg)
    requires r.clusters == t.clusters && r.stats == t.stats && r.inFlight == t.inFlight
    ensures Inv(r, cfg)
  {
  }

  /** The Defragmenting branch keeps the invariant. */
  lemma DefragmentingKeepsInv(t: Sim, cfg: Config, inp: TickInput)
    requires Inv(t, cfg)
    ensures Inv(DefragmentingTick(t, cfg, inp).next, cfg)
  {
    if Due(t.opEnd, inp.deadlinePassed) {
      if t.inFlight.None? {
        StartNextKeepsInv(t, cfg, inp);
      } else {
        AdvanceFileKeepsInv(t, cfg);
      }
    }
  }

  /** The Finished branch keeps the invariant: a demo restart meets it again with equality. */
  lemma FinishedKeepsInv(t: Sim, cfg: Config, draws: LayoutDraws)
    requires Inv(t, cfg)
    ensures Inv(FinishedTick(t, cfg, draws).next, cfg)
  {
    if t.demoMode && t.animationStep > FINISH_WAIT_TICKS / 2 {
      var r := Restarted(t, cfg, draws);
      assert Owed(r) == 0;
    }
  }

  /** A freshly generated grid meets the invariant with equality: nothing is defragmented, nothing
      is in flight, and the total is the Pending count plus the two seeds. */
  lemma InitialInv(clusters: seq<ClusterState>, cfg: Config)
    requires |clusters| == cfg.Total()
    ensures Inv(Initial(clusters), cfg)
    ensures Initial(clusters).stats.totalToDefrag
            == Initial(clusters).stats.clustersDefragged + Count(clusters, Pending) + 2
  {
  }

  // -- What a tick does to the clusters -------------------------------------------------------

  /** The cell rules of the engine: Bad and Unmovable clusters never change, no cluster becomes
      Pending, and only Unused clusters become Writing. */
  ghost predicate CellRules(before: seq<ClusterState>, after: seq<ClusterState>) {
    && |after| == |before|
    && (forall i :: 0 <= i < |before| && (before[i] == Bad || before[i] == Unmovable)
          ==> after[i] == before[i])
    && (forall i :: 0 <= i < |before| && after[i] == Pending ==> before[i] == Pending)
    && (forall i :: 0 <= i < |before| && after[i] == Writing ==> before[i] == Writing || before[i] == Unused)
  }

  lemma StartNextCellRules(s: Sim, cfg: Config, inp: TickInput)
    requires Shaped(s, cfg)
    ensures CellRules(s.clusters, StartNext(s, cfg, inp).next.clusters)
  {
    var pending := PendingIndices(s.clusters);
    if |pending| > 0 {
      var idx := pending[Remainder(inp.pendingPick, |pending|)];
      var c := s.clusters[idx := Reading];
      var started := Started(s, cfg, inp, idx);
      assert StartNext(s, cfg, inp) == Place(started, cfg, idx, inp.fileSize);
      match FirstFit(c, inp.fileSize)
      case Some(start) =>
        var n := Min(inp.fileSize, MaxOne(cfg.iops));
        assert Place(started, cfg, idx, inp.fileSize).next.clusters == MarkWriting(c, start, n);
        StartedCellRules(s.clusters, idx, start, inp.fileSize, n);
      case None =>
        assert Place(started, cfg, idx, inp.fileSize).next.clusters == s.clusters[idx := Used];
        OneCellRules(s.clusters, idx, Used);
    } else {
      assert StartNext(s, cfg, inp).next.clusters == s.clusters;
      CellRulesReflexive(s.clusters);
    }
  }

  /** Reading the drawn Pending cluster and marking Unused clusters Writing follows the cell rules. */
  lemma StartedCellRules(c: seq<ClusterState>, idx: nat, start: nat, size: nat, n: nat)
    requires idx < |c| && c[idx] == Pending
    requires UnusedWindow(c[idx := Reading], start, size) && n <= size
    ensures CellRules(c, MarkWriting(c[idx := Reading], start, n))
  {
    MarkWritingKeepsPending(c[idx := Reading], start, size, n);
  }

  /** Every tick except a demo restart follows the cell rules. */
  lemma TickCellRules(s: Sim, cfg: Config, inp: TickInput)
    requires Shaped(s, cfg) && (s.phase == Analyzing ==> cfg.Total() > 0) && !RestartsNow(s)
    ensures CellRules(s.clusters, Tick(s, cfg, inp).next.clusters)
  {
    if s.phase == Defragmenting {
      var t := Advanced(s);
      assert Tick(s, cfg, inp) == DefragmentingTick(t, cfg, inp);
      DefragmentingCellRules(t, cfg, inp);
    } else {
      QuietTickKeepsClusters(s, cfg, inp);
      CellRulesReflexive(s.clusters);
    }
  }

  /** Outside Defragmenting, a tick other than a demo restart leaves the clusters alone. */
  lemma QuietTickKeepsClusters(s: Sim, cfg: Config, inp: TickInput)
    requires Shaped(s, cfg) && (s.phase == Analyzing ==> cfg.Total() > 0) && !RestartsNow(s)
    requires s.phase != Defragmenting
    ensures Tick(s, cfg, inp).next.clusters == s.clusters
  {
    var t := Advanced(s);
    match s.phase
    case Initializing =>
      assert Tick(s, cfg, inp) == InitializingTick(t);
    case Analyzing =>
      assert Tick(s, cfg, inp) == AnalyzingTick(t, cfg);
    case Finished =>
      assert Tick(s, cfg, inp) == FinishedTick(t, cfg, inp.layout);
  }

  lemma CellRulesReflexive(c: seq<ClusterState>)
    ensures CellRules(c, c)
  {
  }

  lemma DefragmentingCellRules(t: Sim, cfg: Config, inp: TickInput)
    requires Shaped(t, cfg)
    ensures CellRules(t.clusters, DefragmentingTick(t, cfg, inp).next.clusters)
  {
    if !Due(t.opEnd, inp.deadlinePassed) {
      assert DefragmentingTick(t, cfg, inp).next.clusters == t.clusters;
    } else if t.inFlight.None? {
      assert DefragmentingTick(t, cfg, inp) == StartNext(t, cfg, inp);
      StartNextCellRules(t, cfg, inp);
    } else {
      assert DefragmentingTick(t, cfg, inp) == AdvanceFile(t);
      AdvanceFileCellRules(t);
    }
  }

  lemma AdvanceFileCellRules(s: Sim)
    requires s.inFlight.Some?
    requires s.readPos.Some? ==> s.readPos.value < |s.clusters|
    requires s.writePos.Some? ==> s.writePos.value < |s.clusters|
    ensures CellRules(s.clusters, AdvanceFile(s).next.clusters)
  {
    var c := s.clusters;
    match s.inFlight.value
    case FileReading(_) =>
      if s.readPos.Some? && c[s.readPos.value] == Reading {
        assert AdvanceFile(s).next.clusters == c[s.readPos.value := Unused];
        OneCellRules(c, s.readPos.value, Unused);
      } else {
        assert AdvanceFile(s).next.clusters == c;
        CellRulesReflexive(c);
      }
    case FileWriting(_) =>
      if s.writePos.Some? && c[s.writePos.value] == Writing {
        assert AdvanceFile(s).next.clusters == c[s.writePos.value := Used];
        OneCellRules(c, s.writePos.value, Used);
      } else {
        assert AdvanceFile(s).next.clusters == c;
        CellRulesReflexive(c);
      }
    case FileCompleted =>
      assert AdvanceFile(s).next.clusters == c;
      CellRulesReflexive(c);
  }

  /** Turning one cluster that is neither Bad nor Unmovable into Unused or Used keeps the cell
      rules. */
  lemma OneCellRules(c: seq<ClusterState>, i: nat, v: ClusterState)
    requires i < |c| && c[i] != Bad && c[i] != Unmovable
    requires v == Unused || v == Used
    ensures CellRules(c, c[i := v])
  {
  }

  // -- Starting a file ----------------------------------------------------------------------------

  /** The Pending cluster a tick draws: `choose` over the Pending indices in ascending order. */
  function DrawnPending(c: seq<ClusterState>, pick: nat): (idx: nat)
    requires Count(c, Pending) > 0
    ensures idx < |c| && c[idx] == Pending
  {
    var pending := PendingIndices(c);
    pending[Remainder(pick, |pending|)]
  }

  /** Changing a cluster that is not Unused into another state that is not Unused changes no
      first-fit answer. */
  lemma FirstFitIgnoresOtherCells(c: seq<ClusterState>, i: nat, v: ClusterState, size: nat)
    requires i < |c| && c[i] != Unused && v != Unused
    ensures FirstFit(c[i := v], size) == FirstFit(c, size)
  {
    var d := c[i := v];
    assert forall t :: UnusedWindow(d, t, size) <==> UnusedWindow(c, t, size) by {
      forall t ensures UnusedWindow(d, t, size) <==> UnusedWindow(c, t, size) {
        assert forall j :: 0 <= j < |c| && j != i ==> d[j] == c[j];
      }
    }
    var a, b := FirstFit(d, size), FirstFit(c, size);
    if a.Some? && b.Some? {
      assert !(a.value < b.value) && !(b.value < a.value);
    }
  }

  /** Each file start takes exactly one Pending cluster, the drawn one, out of Pending: it becomes
      Reading when a run of the file's size fits and Used otherwise. */
  lemma FileStartTakesOnePending(s: Sim, cfg: Config, inp: TickInput)
    requires Shaped(s, cfg) && s.phase == Defragmenting && s.inFlight.None?
    requires Due(s.opEnd, inp.deadlinePassed) && Count(s.clusters, Pending) > 0
    ensures Tick(s, cfg, inp).next.clusters[DrawnPending(s.clusters, inp.pendingPick)]
            == (if FirstFit(s.clusters, inp.fileSize).Some? then Reading else Used)
    ensures Count(Tick(s, cfg, inp).next.clusters, Pending) == Count(s.clusters, Pending) - 1
    ensures Tick(s, cfg, inp).next.phase == Defragmenting
    ensures Tick(s, cfg, inp).next.filename
            == (if FirstFit(s.clusters, inp.fileSize).Some? then inp.filename else None)
    ensures |Tick(s, cfg, inp).cues| > 0 && Tick(s, cfg, inp).cues[0] == SeekCue
  {
    var t := Advanced(s);
    var idx := DrawnPending(s.clusters, inp.pendingPick);
    var c := s.clusters[idx := Reading];
    assert Tick(s, cfg, inp) == DefragmentingTick(t, cfg, inp);
    assert DefragmentingTick(t, cfg, inp) == StartNext(t, cfg, inp);
    assert StartNext(t, cfg, inp) == Place(Started(t, cfg, inp, idx), cfg, idx, inp.fileSize);
    CountAfterSet(s.clusters, idx, Reading, Pending);
    FirstFitIgnoresOtherCells(s.clusters, idx, Reading, inp.fileSize);
    match FirstFit(c, inp.fileSize)
    case Some(start) =>
      MarkWritingKeepsPending(c, start, inp.fileSize, Min(inp.fileSize, MaxOne(cfg.iops)));
    case None =>
      CountAfterSet(c, idx, Used, Pending);
  }

  /** When a run fits, the file is placed first-fit: the write cursor is the leftmost run of
      `file_size` Unused clusters, up to `max(iops, 1)` of them turn Writing, the read cursor is the
      drawn cluster, and the operation lasts the base duration divided by the throughput. */
  lemma FileStartPlacesFirstFit(s: Sim, cfg: Config, inp: TickInput)
    requires Shaped(s, cfg) && s.phase == Defragmenting && s.inFlight.None?
    requires Due(s.opEnd, inp.deadlinePassed) && Count(s.clusters, Pending) > 0
    requires FirstFit(s.clusters, inp.fileSize).Some?
    ensures Tick(s, cfg, inp).next.writePos == FirstFit(s.clusters, inp.fileSize)
    ensures Tick(s, cfg, inp).next.readPos == Some(DrawnPending(s.clusters, inp.pendingPick))
    ensures Tick(s, cfg, inp).next.inFlight == Some(FileReading(0))
    ensures Tick(s, cfg, inp).next.opEnd == Some(EndsAfter(Quotient(inp.baseDurationMs, MaxOne(cfg.iops))))
    ensures Tick(s, cfg, inp).next.clusters
            == MarkWriting(s.clusters[DrawnPending(s.clusters, inp.pendingPick) := Reading],
                           FirstFit(s.clusters, inp.fileSize).value,
                           Min(inp.fileSize, MaxOne(cfg.iops)))
  {
    FirstFitIgnoresOtherCells(s.clusters, DrawnPending(s.clusters, inp.pendingPick), Reading, inp.fileSize);
  }

  /** When no run of `file_size` Unused clusters exists, the drawn cluster is committed in place:
      it becomes Used, `clusters_defragged` rises by exactly one, the read cursor and file name are
      cleared, and the next file may start at the next tick. */
  lemma NoFitCommitsInPlace(s: Sim, cfg: Config, inp: TickInput)
    requires Shaped(s, cfg) && s.phase == Defragmenting && s.inFlight.None?
    requires Due(s.opEnd, inp.deadlinePassed) && Count(s.clusters, Pending) > 0
    requires forall t :: !UnusedWindow(s.clusters, t, inp.fileSize)
    ensures Tick(s, cfg, inp).next.clusters
            == s.clusters[DrawnPending(s.clusters, inp.pendingPick) := Used]
    ensures Tick(s, cfg, inp).next.stats.clustersDefragged == s.stats.clustersDefragged + 1
    ensures Tick(s, cfg, inp).next.readPos == None && Tick(s, cfg, inp).next.filename == None
    ensures Tick(s, cfg, inp).next.inFlight == None && Tick(s, cfg, inp).next.opEnd == Some(EndsNow)
    ensures Tick(s, cfg, inp).cues == [SeekCue, WriteCue]
  {
    var idx := DrawnPending(s.clusters, inp.pendingPick);
    FirstFitIgnoresOtherCells(s.clusters, idx, Reading, inp.fileSize);
    assert s.clusters[idx := Reading][idx := Used] == s.clusters[idx := Used];
  }

  // -- The file sub-machine and the end of defragmentation ---------------------------------------

  /** The in-flight file's next state: Reading, Writing, Completed, then no file. */
  function NextFilePhase(p: FileDefragPhase): Option<FileDefragPhase> {
    match p
    case FileReading(_) => Some(FileWriting(0))
    case FileWriting(_) => Some(FileCompleted)
    case FileCompleted => None
  }

  /** While a file is in flight nothing happens until the operation is due; then the file advances
      exactly one state, and the phase stays Defragmenting. */
  lemma FileAdvancesOneStep(s: Sim, cfg: Config, inp: TickInput)
    requires Shaped(s, cfg) && s.phase == Defragmenting && s.inFlight.Some?
    ensures !Due(s.opEnd, inp.deadlinePassed)
            ==> Tick(s, cfg, inp) == Step(Advanced(s), [])
    ensures Due(s.opEnd, inp.deadlinePassed)
            ==> Tick(s, cfg, inp).next.inFlight == NextFilePhase(s.inFlight.value)
    ensures Tick(s, cfg, inp).next.phase == Defragmenting
  {
    var t := Advanced(s);
    assert Tick(s, cfg, inp) == DefragmentingTick(t, cfg, inp);
    if Due(s.opEnd, inp.deadlinePassed) {
      assert DefragmentingTick(t, cfg, inp) == AdvanceFile(t);
    } else {
      assert DefragmentingTick(t, cfg, inp) == Step(t, []);
    }
  }

  /** Writing commits only the cluster under the write cursor, and only when it is still Writing;
      any other cluster marked Writing when the file started stays Writing. */
  lemma WriteCommitsOneCluster(s: Sim, cfg: Config, inp: TickInput)
    requires Shaped(s, cfg) && s.phase == Defragmenting && Due(s.opEnd, inp.deadlinePassed)
    requires s.inFlight.Some? && s.inFlight.value.FileWriting?
    ensures s.writePos.Some? && s.clusters[s.writePos.value] == Writing
            ==> Tick(s, cfg, inp).next.clusters == s.clusters[s.writePos.value := Used]
                && Tick(s, cfg, inp).next.stats.clustersDefragged == s.stats.clustersDefragged + 1
    ensures !(s.writePos.Some? && s.clusters[s.writePos.value] == Writing)
            ==> Tick(s, cfg, inp).next.clusters == s.clusters
                && Tick(s, cfg, inp).next.stats == s.stats
  {
  }

  /** Defragmenting ends exactly when the operation is due, no file is in flight and no Pending
      cluster is left; otherwise it goes on. */
  lemma FinishesExactlyWhenNothingPending(s: Sim, cfg: Config, inp: TickInput)
    requires Shaped(s, cfg) && s.phase == Defragmenting
    ensures Tick(s, cfg, inp).next.phase == Finished
            <==> Due(s.opEnd, inp.deadlinePassed) && s.inFlight.None? && Count(s.clusters, Pending) == 0
    ensures Tick(s, cfg, inp).next.phase != Finished ==> Tick(s, cfg, inp).next.phase == Defragmenting
  {
    var t := Advanced(s);
    assert Tick(s, cfg, inp) == DefragmentingTick(t, cfg, inp);
    if Due(s.opEnd, inp.deadlinePassed) && s.inFlight.None? {
      assert DefragmentingTick(t, cfg, inp) == StartNext(t, cfg, inp);
      StartNextFinishes(t, cfg, inp);
    } else if Due(s.opEnd, inp.deadlinePassed) {
      assert DefragmentingTick(t, cfg, inp) == AdvanceFile(t);
      assert AdvanceFile(t).next.phase == Defragmenting;
    } else {
      assert DefragmentingTick(t, cfg, inp) == Step(t, []);
    }
  }

  /** On finishing, both cursors and the file name are cleared, and the step counter is not reset. */
  lemma FinishClearsFile(s: Sim, cfg: Config, inp: TickInput)
    requires Shaped(s, cfg) && s.phase == Defragmenting
    requires Due(s.opEnd, inp.deadlinePassed) && s.inFlight.None? && Count(s.clusters, Pending) == 0
    ensures Tick(s, cfg, inp).next
            == s.(phase := Finished, animationStep := s.animationStep + 1, filename := None,
                  readPos := None, writePos := None)
  {
    var t := Advanced(s);
    assert Tick(s, cfg, inp) == DefragmentingTick(t, cfg, inp);
    assert DefragmentingTick(t, cfg, inp) == StartNext(t, cfg, inp);
    StartNextFinishes(t, cfg, inp);
  }

  /** Starting the next file finishes exactly when no Pending cluster is left. */
  lemma StartNextFinishes(t: Sim, cfg: Config, inp: TickInput)
    requires Shaped(t, cfg) && t.phase == Defragmenting
    ensures StartNext(t, cfg, inp).next.phase == Finished <==> Count(t.clusters, Pending) == 0
    ensures StartNext(t, cfg, inp).next.phase != Finished ==> StartNext(t, cfg, inp).next.phase == Defragmenting
    ensures Count(t.clusters, Pending) == 0
            ==> StartNext(t, cfg, inp).next
                == t.(phase := Finished, filename := None, readPos := None, writePos := None)
  {
    var pending := PendingIndices(t.clusters);
    if |pending| > 0 {
      var idx := pending[Remainder(inp.pendingPick, |pending|)];
      var started := Started(t, cfg, inp, idx);
      assert StartNext(t, cfg, inp) == Place(started, cfg, idx, inp.fileSize);
    }
  }

  // -- Counters ----------------------------------------------------------------------------------

  /** Between restarts `clusters_defragged` never decreases and rises by at most one per tick, and
      `total_to_defrag` is fixed. */
  lemma DefraggedMonotone(s: Sim, cfg: Config, inp: TickInput)
    requires Shaped(s, cfg) && (s.phase == Analyzing ==> cfg.Total() > 0) && !RestartsNow(s)
    ensures Tick(s, cfg, inp).next.stats.totalToDefrag == s.stats.totalToDefrag
    ensures s.stats.clustersDefragged <= Tick(s, cfg, inp).next.stats.clustersDefragged
                                      <= s.stats.clustersDefragged + 1
  {
    var t := Advanced(s);
    match s.phase
    case Initializing =>
      assert Tick(s, cfg, inp) == InitializingTick(t);
      assert InitializingTick(t).next.stats == s.stats;
    case Analyzing =>
      assert Tick(s, cfg, inp) == AnalyzingTick(t, cfg);
      assert AnalyzingTick(t, cfg).next.stats == s.stats;
    case Defragmenting =>
      assert Tick(s, cfg, inp) == DefragmentingTick(t, cfg, inp);
      DefragmentingCounts(t, cfg, inp);
    case Finished =>
      assert Tick(s, cfg, inp) == FinishedTick(t, cfg, inp.layout);
      assert FinishedTick(t, cfg, inp.layout).next.stats == s.stats;
  }

  /** The Defragmenting branch keeps the total and adds at most one defragmented cluster. */
  lemma DefragmentingCounts(t: Sim, cfg: Config, inp: TickInput)
    requires Shaped(t, cfg)
    ensures DefragmentingTick(t, cfg, inp).next.stats.totalToDefrag == t.stats.totalToDefrag
    ensures t.stats.clustersDefragged <= DefragmentingTick(t, cfg, inp).next.stats.clustersDefragged
                                      <= t.stats.clustersDefragged + 1
  {
    if !Due(t.opEnd, inp.deadlinePassed) {
      assert DefragmentingTick(t, cfg, inp) == Step(t, []);
    } else if t.inFlight.None? {
      assert DefragmentingTick(t, cfg, inp) == StartNext(t, cfg, inp);
      StartNextCounts(t, cfg, inp);
    } else {
      assert DefragmentingTick(t, cfg, inp) == AdvanceFile(t);
    }
  }

  /** Starting a file keeps the total and adds one defragmented cluster only when none fits. */
  lemma StartNextCounts(t: Sim, cfg: Config, inp: TickInput)
    requires Shaped(t, cfg)
    ensures StartNext(t, cfg, inp).next.stats.totalToDefrag == t.stats.totalToDefrag
    ensures t.stats.clustersDefragged <= StartNext(t, cfg, inp).next.stats.clustersDefragged
                                      <= t.stats.clustersDefragged + 1
  {
    var pending := PendingIndices(t.clusters);
    if |pending| > 0 {
      var idx := pending[Remainder(inp.pendingPick, |pending|)];
      var started := Started(t, cfg, inp, idx);
      assert StartNext(t, cfg, inp) == Place(started, cfg, idx, inp.fileSize);
    }
  }

  /** A demo restart resets the counters to a fresh layout's. */
  lemma RestartResetsCounters(s: Sim, cfg: Config, inp: TickInput)
    requires Shaped(s, cfg) && RestartsNow(s)
    ensures Tick(s, cfg, inp).next == Restarted(s, cfg, inp.layout)
    ensures Tick(s, cfg, inp).next.stats.clustersDefragged == 0
    ensures Tick(s, cfg, inp).next.stats.totalToDefrag
            == Count(Tick(s, cfg, inp).next.clusters, Pending) + 2
  {
  }

  // -- Phase transitions ---------------------------------------------------------------------

  /** From a fresh start, twenty ticks stay in Initializing, counting up. */
  lemma {:induction false} InitializingCountsUp(s: Sim, cfg: Config, inputs: seq<TickInput>)
    requires Shaped(s, cfg) && cfg.Total() > 0
    requires s.phase == Initializing && s.animationStep + |inputs| <= INIT_DURATION_TICKS
    ensures Run(s, cfg, inputs) == s.(animationStep := s.animationStep + |inputs|)
    decreases |inputs|
  {
    if inputs != [] {
      var next := Tick(s, cfg, inputs[0]).next;
      assert next == s.(animationStep := s.animationStep + 1);
      InitializingCountsUp(next, cfg, inputs[1..]);
    }
  }

  /** Initializing lasts exactly 21 ticks from a fresh start: after 20 ticks the phase is still
      Initializing, and the 21st moves to Analyzing with the step counter back at 0. */
  lemma InitializingLasts21Ticks(s: Sim, cfg: Config, inputs: seq<TickInput>)
    requires Shaped(s, cfg) && cfg.Total() > 0
    requires s.phase == Initializing && s.animationStep == 0 && |inputs| == INIT_DURATION_TICKS + 1
    ensures Run(s, cfg, inputs[..INIT_DURATION_TICKS]).phase == Initializing
    ensures Run(s, cfg, inputs).phase == Analyzing && Run(s, cfg, inputs).animationStep == 0
  {
    var first := inputs[..INIT_DURATION_TICKS];
    InitializingCountsUp(s, cfg, first);
    RunAppend(s, cfg, first, inputs[INIT_DURATION_TICKS..]);
    assert first + inputs[INIT_DURATION_TICKS..] == inputs;
  }

  /** Running two input sequences one after the other is running their concatenation. */
  lemma {:induction false} RunAppend(s: Sim, cfg: Config, a: seq<TickInput>, b: seq<TickInput>)
    requires Shaped(s, cfg) && cfg.Total() > 0
    ensures Run(s, cfg, a + b) == Run(Run(s, cfg, a), cfg, b)
    decreases |a|
  {
    if a != [] {
      assert (a + b)[0] == a[0] && (a + b)[1..] == a[1..] + b;
      RunAppend(Tick(s, cfg, a[0]).next, cfg, a[1..], b);
    } else {
      assert a + b == b;
    }
  }

  /** Analyzing sweeps the read cursor over `min(5 * step, total - 1)` and moves to Defragmenting,
      clearing the cursor and the step counter, once the step exceeds `total / 5 + 10`; a seek
      sound is asked for every third step. */
  lemma AnalyzingSweeps(s: Sim, cfg: Config, inp: TickInput)
    requires Shaped(s, cfg) && cfg.Total() > 0 && s.phase == Analyzing
    ensures var step := s.animationStep + 1;
            Tick(s, cfg, inp).next.phase == Defragmenting <==> step > cfg.Total() / 5 + 10
    ensures var step := s.animationStep + 1;
            step <= cfg.Total() / 5 + 10
            ==> Tick(s, cfg, inp).next == s.(animationStep := step,
                                              readPos := Some(Min(step * 5, cfg.Total() - 1)))
    ensures var step := s.animationStep + 1;
            step > cfg.Total() / 5 + 10
            ==> Tick(s, cfg, inp).next == s.(animationStep := 0, readPos := None,
                                              phase := Defragmenting, opEnd := Some(EndsNow))
    ensures Tick(s, cfg, inp).cues == (if (s.animationStep + 1) % 3 == 0 then [SeekCue] else [])
  {
  }

  /** Finished waits: a demo restarts once the step exceeds 25, a normal run stops once it exceeds
      50, and until then only the step counter moves. */
  lemma FinishedWaits(s: Sim, cfg: Config, inp: TickInput)
    requires Shaped(s, cfg) && s.phase == Finished
    ensures FINISH_WAIT_TICKS / 2 == 25 && FINISH_WAIT_TICKS == 50
    ensures s.demoMode && s.animationStep + 1 > 25 ==> Tick(s, cfg, inp).next.phase == Initializing
    ensures !s.demoMode && s.animationStep + 1 > 50
            ==> Tick(s, cfg, inp).next == s.(animationStep := s.animationStep + 1, running := false)
    ensures (if s.demoMode then s.animationStep + 1 <= 25 else s.animationStep + 1 <= 50)
            ==> Tick(s, cfg, inp).next == s.(animationStep := s.animationStep + 1)
  {
  }

  // -- Pausing -------------------------------------------------------------------------------------

  /** Pausing flips `paused` exactly in Analyzing and Defragmenting and changes nothing else; the
      audio is silenced exactly when the simulation becomes paused. */
  lemma TogglePauseFlips(s: Sim)
    ensures TogglePause(s).next == (if s.phase == Analyzing || s.phase == Defragmenting
                                    then s.(paused := !s.paused) else s)
    ensures StopAllCue in TogglePause(s).cues <==> !s.paused && TogglePause(s).next.paused
  {
  }

  /** Toggling pause twice restores the state. */
  lemma TogglePauseTwice(s: Sim)
    ensures TogglePause(TogglePause(s).next).next == s
  {
  }
}
