/** The application object (`App`, src/app.rs:260-887): the simulation state the event loop ticks,
    the menu state, the drive and the two caches. Each method is proved against the pure engine in
    module Engine, whose lemmas carry the properties. */
module Application {
  import opened Wrappers
  import opened Arith
  import opened Models
  import opened Grid
  import opened Constants
  import opened Layout
  import opened FreeSpace
  import opened Drives
  import opened Engine

  class App {
    var running: bool
    var paused: bool
    /** The tick period in milliseconds; every tick resets it to the default. */
    var tickRateMs: nat
    const width: nat
    const height: nat
    var clusters: seq<ClusterState>
    var stats: DefragStats
    var phase: DefragPhase
    var animationStep: nat
    var readPos: Option<nat>
    var writePos: Option<nat>
    var inFlight: Option<FileDefragPhase>
    var filename: Option<string>
    var opEnd: Option<OpEnd>
    var menuOpen: bool
    var selectedMenu: nat
    var selectedItem: nat
    var showAboutBox: bool
    const currentDrive: DiskDrive
    const driveCollection: DiskDriveCollection
    const uiStyle: DefragStyle
    const freeSpaceCache: FreeSpaceCache
    var demoMode: bool
    var pendingIndicesCache: seq<nat>
    var pendingCacheDirty: bool

    /** The part of the state the engine ticks. */
    function Sim(): Sim
      reads this`running, this`paused, this`clusters, this`stats, this`phase, this`animationStep
      reads this`readPos, this`writePos, this`inFlight, this`filename, this`opEnd, this`demoMode
    {
      Engine.Sim(running, paused, clusters, stats, phase, animationStep, readPos, writePos,
                 inFlight, filename, opEnd, demoMode)
    }

    /** What the engine reads and never changes. */
    function Cfg(): Config {
      Config(width, height, currentDrive.Iops())
    }

    ghost predicate Valid()
      reads this`running, this`paused, this`clusters, this`stats, this`phase, this`animationStep
      reads this`readPos, this`writePos, this`inFlight, this`filename, this`opEnd, this`demoMode
    {
      Inv(Sim(), Cfg())
    }

    /** `App::new` (src/app.rs:292-387): a generated layout at the given fill, the drive chosen by
        letter (upper-cased, defaulting to C), phase Initializing, both caches dirty. The RNG's
        draws are a parameter and the audio engine is not modelled. */
    constructor (width: nat, height: nat, fill: real, driveLetter: char, uiStyle: DefragStyle,
                 draws: LayoutDraws)
      ensures this.width == width && this.height == height && this.uiStyle == uiStyle
      ensures Sim() == Initial(GeneratedLayout(Area(width, height), ScaledCount(Area(width, height), fill), draws))
      ensures driveCollection == NewCollection()
      ensures currentDrive == SelectDrive(NewCollection(), driveLetter)
      ensures tickRateMs == DEFAULT_TICK_RATE_MS
      ensures !menuOpen && selectedMenu == 0 && selectedItem == 0 && !showAboutBox
      ensures fresh(freeSpaceCache) && freeSpaceCache.dirty && freeSpaceCache.regions == []
      ensures pendingIndicesCache == [] && pendingCacheDirty
      ensures Valid()
    {
      var total := Area(width, height);
      var c := GenerateClusters(total, ScaledCount(total, fill), draws);
      var collection := NewCollection();
      var cache := new FreeSpaceCache();
      var drive := SelectDrive(collection, driveLetter);
      InitialInv(c, Config(width, height, drive.Iops()));
      this.width := width;
      this.height := height;
      running := true;
      tickRateMs := DEFAULT_TICK_RATE_MS;
      menuOpen := false;
      selectedMenu := 0;
      selectedItem := 0;
      showAboutBox := false;
      currentDrive := drive;
      driveCollection := collection;
      this.uiStyle := uiStyle;
      freeSpaceCache := cache;
      demoMode := false;
      pendingIndicesCache := [];
      pendingCacheDirty := true;
      clusters := c;
      stats := DefragStats(Count(c, Pending) + 2, 0);
      phase := Initializing;
      animationStep := 0;
      paused := false;
      readPos := None;
      writePos := None;
      inFlight := None;
      filename := None;
      opEnd := None;
    }

    /** `toggle_pause` (src/app.rs:389-398); the returned cues hold the request to silence the
        audio. */
    method TogglePause() returns (cues: seq<Cue>)
      requires Valid()
      modifies this`paused
      ensures Step(Sim(), cues) == Engine.TogglePause(old(Sim()))
      ensures Valid()
    {
      cues := [];
      if phase == Defragmenting || phase == Analyzing {
        paused := !paused;
        if paused {
          cues := [StopAllCue];
        }
      }
    }

    /** `toggle_demo_mode` (src/app.rs:400-402). */
    method ToggleDemoMode()
      requires Valid()
      modifies this`demoMode
      ensures demoMode == !old(demoMode)
      ensures Valid()
    {
      demoMode := !demoMode;
    }

    /** `restart` (src/app.rs:404-459) with the RNG's draws as a parameter: a new layout at the
        default fill, fresh statistics and both caches marked dirty. */
    method Restart(draws: LayoutDraws)
      modifies freeSpaceCache`dirty, this`pendingCacheDirty
      modifies this`clusters, this`stats, this`phase, this`animationStep, this`paused
      modifies this`readPos, this`writePos, this`inFlight, this`filename, this`opEnd
      ensures Sim() == Restarted(old(Sim()), Cfg(), draws)
      ensures freeSpaceCache.dirty && pendingCacheDirty
      ensures Valid()
    {
      freeSpaceCache.Invalidate();
      pendingCacheDirty := true;
      var total := Area(width, height);
      var c := GenerateClusters(total, DefaultPending(total), draws);
      ResetTo(c);
    }

    /** The part of `new` and `restart` that puts the simulation at the start of a fresh layout
        `c`: statistics counted from `c`, phase Initializing, cursors, file and timer cleared,
        unpaused; running and demo mode are kept. */
    method ResetTo(c: seq<ClusterState>)
      requires |c| == Cfg().Total()
      modifies this`clusters, this`stats, this`phase, this`animationStep, this`paused
      modifies this`readPos, this`writePos, this`inFlight, this`filename, this`opEnd
      ensures Sim() == Initial(c).(running := old(running), demoMode := old(demoMode))
      ensures Valid()
    {
      ResetProgress(c);
      ClearFile();
    }

    /** The grid, the statistics counted from it, phase Initializing at step 0, unpaused. */
    method ResetProgress(c: seq<ClusterState>)
      modifies this`clusters, this`stats, this`phase, this`animationStep, this`paused
      ensures clusters == c && stats == DefragStats(Count(c, Pending) + 2, 0)
      ensures phase == Initializing && animationStep == 0 && !paused
    {
      clusters := c;
      stats := DefragStats(Count(c, Pending) + 2, 0);
      phase := Initializing;
      animationStep := 0;
      paused := false;
    }

    /** No cursor, no file in flight, no file name and no operation timer. */
    method ClearFile()
      modifies this`readPos, this`writePos, this`inFlight, this`filename, this`opEnd
      ensures readPos == None && writePos == None && inFlight == None
      ensures filename == None && opEnd == None
    {
      readPos := None;
      writePos := None;
      inFlight := None;
      filename := None;
      opEnd := None;
    }

    /** `find_contiguous_unused_clusters` (src/app.rs:799-824): the left-to-right scan that
        returns the start of the first run reaching `size` Unused clusters. */
    method FindContiguousUnusedClusters(size: nat) returns (r: Option<nat>)
      ensures r == FirstFit(clusters, size)
    {
      if size == 0 {
        return None;
      }
      var currentRun := 0;
      var startPos: Option<nat> := None;
      var i := 0;
      while i < |clusters|
        invariant i <= |clusters| && currentRun <= i && currentRun < size
        invariant forall j :: i - currentRun <= j < i ==> clusters[j] == Unused
        invariant i - currentRun > 0 ==> clusters[i - currentRun - 1] != Unused
        invariant startPos == if currentRun == 0 then None else Some(i - currentRun)
        invariant forall t: nat :: t + size <= i ==> !UnusedWindow(clusters, t, size)
      {
        if clusters[i] == Unused {
          if currentRun == 0 {
            startPos := Some(i);
          }
          currentRun := currentRun + 1;
          if currentRun >= size {
            FirstFitIsUnique(clusters, size, startPos);
            return startPos;
          }
        } else {
          currentRun := 0;
          startPos := None;
        }
        i := i + 1;
      }
      FirstFitIsUnique(clusters, size, None);
      return None;
    }

    /** `invalidate_caches` (src/app.rs:826-829). */
    method InvalidateCaches()
      modifies this`pendingCacheDirty, freeSpaceCache`dirty
      ensures pendingCacheDirty && freeSpaceCache.dirty
    {
      freeSpaceCache.Invalidate();
      pendingCacheDirty := true;
    }

    /** `get_pending_indices` (src/app.rs:831-843): rescans only when the cache is dirty, so a
        clean cache answers with whatever it last held, even if the grid changed since. */
    method GetPendingIndices() returns (r: seq<nat>)
      modifies this`pendingIndicesCache, this`pendingCacheDirty
      ensures old(pendingCacheDirty) ==> r == PendingIndices(clusters)
      ensures !old(pendingCacheDirty) ==> r == old(pendingIndicesCache)
      ensures r == pendingIndicesCache && !pendingCacheDirty
    {
      if pendingCacheDirty {
        pendingIndicesCache := CollectPending(clusters);
        pendingCacheDirty := false;
      }
      r := pendingIndicesCache;
    }

    /** `handle_menu_action` (src/app.rs:776-795): File/New restarts, File/Exit stops, the first
        Optimize entry re-enters Analyzing unless already there, the Help entries open the about
        box; every other entry does nothing. */
    method HandleMenuAction(draws: LayoutDraws)
      requires Valid()
      modifies freeSpaceCache`dirty, this`pendingCacheDirty, this`showAboutBox, this`running
      modifies this`clusters, this`stats, this`phase, this`animationStep, this`paused
      modifies this`readPos, this`writePos, this`inFlight, this`filename, this`opEnd
      ensures Valid()
      ensures selectedMenu == 0 && selectedItem == 0 ==> Sim() == Restarted(old(Sim()), Cfg(), draws)
      ensures selectedMenu == 0 && selectedItem == 4 ==> Sim() == old(Sim()).(running := false)
      ensures selectedMenu == 1 && selectedItem == 0
              ==> Sim() == if old(phase) == Analyzing then old(Sim())
                           else old(Sim()).(phase := Analyzing, animationStep := 0)
      ensures selectedMenu == 4 && selectedItem <= 1 ==> Sim() == old(Sim()) && showAboutBox
      ensures !(selectedMenu == 0 && (selectedItem == 0 || selectedItem == 4))
              && !(selectedMenu == 1 && selectedItem == 0) && !(selectedMenu == 4 && selectedItem <= 1)
              ==> Sim() == old(Sim()) && showAboutBox == old(showAboutBox)
      ensures selectedMenu == 0 && selectedItem == 0 ==> freeSpaceCache.dirty && pendingCacheDirty
      ensures !(selectedMenu == 0 && selectedItem == 0)
              ==> freeSpaceCache.dirty == old(freeSpaceCache.dirty) && pendingCacheDirty == old(pendingCacheDirty)
      ensures !(selectedMenu == 4 && selectedItem <= 1) ==> showAboutBox == old(showAboutBox)
    {
      match (selectedMenu, selectedItem)
      case (0, 0) =>
        Restart(draws);
      case (0, 4) =>
        Stop();
      case (1, 0) =>
        Reanalyze();
      case (4, 0) =>
        showAboutBox := true;
      case (4, 1) =>
        showAboutBox := true;
      case _ =>
    }

    /** File/Exit: the event loop stops. */
    method Stop()
      requires Valid()
      modifies this`running
      ensures Sim() == old(Sim()).(running := false) && Valid()
    {
      running := false;
    }

    /** Optimize: the analysis starts over unless it is already running. */
    method Reanalyze()
      requires Valid()
      modifies this`phase, this`animationStep
      ensures Sim() == if old(phase) == Analyzing then old(Sim())
                       else old(Sim()).(phase := Analyzing, animationStep := 0)
      ensures Valid()
    {
      if phase != Analyzing {
        phase := Analyzing;
        animationStep := 0;
      }
    }

    /** The Initializing branch of `update` (src/app.rs:625-630), after the step advanced. */
    method InitializingStep()
      modifies this`phase, this`animationStep
      ensures Sim() == InitializingTick(old(Sim())).next
    {
      if animationStep > INIT_DURATION_TICKS {
        phase := Analyzing;
        animationStep := 0;
      }
    }

    /** The Analyzing branch of `update` (src/app.rs:631-648), after the step advanced. */
    method AnalyzingStep() returns (cues: seq<Cue>)
      requires Shaped(Sim(), Cfg()) && Cfg().Total() > 0
      modifies this`readPos, this`phase, this`animationStep, this`opEnd
      ensures Step(Sim(), cues) == AnalyzingTick(old(Sim()), Cfg())
    {
      var total := Area(width, height);
      readPos := Some(Min(animationStep * 5, total - 1));
      cues := if animationStep % 3 == 0 then [SeekCue] else [];
      if animationStep > total / 5 + 10 {
        readPos := None;
        phase := Defragmenting;
        animationStep := 0;
        opEnd := Some(EndsNow);
      }
    }

    /** The Defragmenting branch of `update` (src/app.rs:649-765), after the step advanced: nothing
        until the current operation is due, then the next file starts or the one in flight
        advances. */
    method DefragmentingStep(inp: TickInput) returns (cues: seq<Cue>)
      requires Shaped(Sim(), Cfg())
      modifies this`clusters, this`stats, this`phase, this`readPos, this`writePos
      modifies this`inFlight, this`filename, this`opEnd
      ensures Step(Sim(), cues) == DefragmentingTick(old(Sim()), Cfg(), inp)
    {
      cues := [];
      if Due(opEnd, inp.deadlinePassed) {
        if inFlight.None? {
          cues := StartNextFile(inp);
        } else {
          cues := AdvanceFileInFlight();
        }
      }
    }

    /** The file start of the Defragmenting branch (src/app.rs:654-706). */
    method StartNextFile(inp: TickInput) returns (cues: seq<Cue>)
      requires Shaped(Sim(), Cfg()) && inFlight.None?
      modifies this`clusters, this`stats, this`phase, this`readPos, this`writePos
      modifies this`inFlight, this`filename, this`opEnd
      ensures Step(Sim(), cues) == StartNext(old(Sim()), Cfg(), inp)
    {
      var pending := CollectPending(clusters);
      if |pending| == 0 {
        FinishDefragmenting();
        return [];
      }
      var idx := pending[Remainder(inp.pendingPick, |pending|)];
      BeginRead(idx, inp.filename, Quotient(inp.baseDurationMs, MaxOne(currentDrive.Iops())));
      cues := PlaceFile(idx, inp.fileSize);
    }

    /** Nothing Pending is left: phase Finished, with the file name and both cursors cleared. */
    method FinishDefragmenting()
      modifies this`phase, this`filename, this`readPos, this`writePos
      ensures Sim() == old(Sim()).(phase := Finished, filename := None, readPos := None, writePos := None)
    {
      phase := Finished;
      filename := None;
      readPos := None;
      writePos := None;
    }

    /** The drawn cluster `idx` starts being read, under the drawn file name, for `durationMs`. */
    method BeginRead(idx: nat, name: Option<string>, durationMs: nat)
      requires idx < |clusters|
      modifies this`filename, this`opEnd, this`clusters, this`readPos
      ensures Sim() == old(Sim()).(filename := name, opEnd := Some(EndsAfter(durationMs)),
                                   clusters := old(clusters)[idx := Reading], readPos := Some(idx))
    {
      filename := name;
      opEnd := Some(EndsAfter(durationMs));
      clusters := clusters[idx := Reading];
      readPos := Some(idx);
    }

    /** The placement of the started file (src/app.rs:676-705): first-fit, marking at most one
        cluster per I/O operation as Writing, or an immediate commit when nothing fits. */
    method PlaceFile(idx: nat, size: nat) returns (cues: seq<Cue>)
      requires Shaped(Sim(), Cfg()) && idx < |clusters|
      modifies this`clusters, this`stats, this`readPos, this`writePos
      modifies this`inFlight, this`filename, this`opEnd
      ensures Step(Sim(), cues) == Place(old(Sim()), Cfg(), idx, size)
    {
      var found := FindContiguousUnusedClusters(size);
      if found.Some? {
        var start := found.value;
        var marked := MarkWritingRun(clusters, start, Min(size, MaxOne(currentDrive.Iops())));
        StartWriting(marked, start);
        cues := [SeekCue];
      } else {
        CommitInPlace(idx);
        cues := [SeekCue, WriteCue];
      }
    }

    /** The write run is marked and the file moves to its reading step. */
    method StartWriting(marked: seq<ClusterState>, start: nat)
      modifies this`clusters, this`writePos, this`inFlight
      ensures Sim() == old(Sim()).(clusters := marked, writePos := Some(start), inFlight := Some(FileReading(0)))
    {
      clusters := marked;
      writePos := Some(start);
      inFlight := Some(FileReading(0));
    }

    /** No run fits: the drawn cluster is committed at once and the next file may start. */
    method CommitInPlace(idx: nat)
      requires idx < |clusters|
      modifies this`clusters, this`stats, this`readPos, this`filename, this`opEnd
      ensures Sim() == old(Sim()).(clusters := old(clusters)[idx := Used],
                                   stats := old(stats).(clustersDefragged := old(stats).clustersDefragged + 1),
                                   readPos := None, filename := None, opEnd := Some(EndsNow))
    {
      clusters := clusters[idx := Used];
      stats := stats.(clustersDefragged := stats.clustersDefragged + 1);
      readPos := None;
      filename := None;
      opEnd := Some(EndsNow);
    }

    /** The in-flight branch of Defragmenting (src/app.rs:707-748). */
    method AdvanceFileInFlight() returns (cues: seq<Cue>)
      requires Shaped(Sim(), Cfg()) && inFlight.Some?
      modifies this`clusters, this`stats, this`inFlight, this`filename, this`opEnd
      ensures Step(Sim(), cues) == AdvanceFile(old(Sim()))
    {
      cues := [];
      match inFlight.value
      case FileReading(_) =>
        if readPos.Some? && clusters[readPos.value] == Reading {
          clusters := clusters[readPos.value := Unused];
          cues := [ReadCue];
        }
        inFlight := Some(FileWriting(0));
      case FileWriting(_) =>
        if writePos.Some? && clusters[writePos.value] == Writing {
          clusters := clusters[writePos.value := Used];
          stats := stats.(clustersDefragged := stats.clustersDefragged + 1);
          cues := [WriteCue];
        }
        inFlight := Some(FileCompleted);
      case FileCompleted =>
        inFlight := None;
        filename := None;
        opEnd := Some(EndsNow);
    }

    /** The Finished branch of `update` (src/app.rs:766-772), after the step advanced: a demo
        restarts, a normal run stops. */
    method FinishedStep(draws: LayoutDraws)
      requires Shaped(Sim(), Cfg())
      modifies freeSpaceCache`dirty, this`pendingCacheDirty, this`running
      modifies this`clusters, this`stats, this`phase, this`animationStep, this`paused
      modifies this`readPos, this`writePos, this`inFlight, this`filename, this`opEnd
      ensures Sim() == FinishedTick(old(Sim()), Cfg(), draws).next
      ensures demoMode && old(animationStep) > FINISH_WAIT_TICKS / 2
              ==> pendingCacheDirty && freeSpaceCache.dirty
      ensures !(demoMode && old(animationStep) > FINISH_WAIT_TICKS / 2)
              ==> pendingCacheDirty == old(pendingCacheDirty)
                  && freeSpaceCache.dirty == old(freeSpaceCache.dirty)
    {
      if demoMode && animationStep > FINISH_WAIT_TICKS / 2 {
        Restart(draws);
      } else if !demoMode && animationStep > FINISH_WAIT_TICKS {
        running := false;
      }
    }

    /** `update` (src/app.rs:615-774): one tick of the engine. The tick rate returns to the default,
        and a demo restart also marks both caches dirty; the caches are otherwise left alone. */
    method Update(inp: TickInput) returns (cues: seq<Cue>)
      requires Valid()
      requires phase == Analyzing ==> Area(width, height) > 0
      modifies freeSpaceCache`dirty, this`pendingCacheDirty, this`running, this`tickRateMs
      modifies this`clusters, this`stats, this`phase, this`animationStep, this`paused
      modifies this`readPos, this`writePos, this`inFlight, this`filename, this`opEnd
      ensures Step(Sim(), cues) == Tick(old(Sim()), Cfg(), inp)
      ensures Valid()
      ensures tickRateMs == DEFAULT_TICK_RATE_MS
      ensures RestartsNow(old(Sim())) ==> pendingCacheDirty && freeSpaceCache.dirty
      ensures !RestartsNow(old(Sim()))
              ==> pendingCacheDirty == old(pendingCacheDirty)
                  && freeSpaceCache.dirty == old(freeSpaceCache.dirty)
    {
      ghost var s := Sim();
      TickKeepsInv(s, Cfg(), inp);
      BeginTick();
      cues := RunPhase(s, inp);
    }

    /** The start of every tick: the step advances and the tick rate returns to the default. */
    method BeginTick()
      modifies this`animationStep, this`tickRateMs
      ensures Sim() == Advanced(old(Sim()))
      ensures tickRateMs == DEFAULT_TICK_RATE_MS
    {
      animationStep := animationStep + 1;
      tickRateMs := DEFAULT_TICK_RATE_MS;
    }

    /** The rest of the tick that began in state `s`: the branch of the current phase. */
    method RunPhase(ghost s: Sim, inp: TickInput) returns (cues: seq<Cue>)
      requires Shaped(s, Cfg()) && Sim() == Advanced(s)
      requires s.phase == Analyzing ==> Cfg().Total() > 0
      modifies freeSpaceCache`dirty, this`pendingCacheDirty, this`running
      modifies this`clusters, this`stats, this`phase, this`animationStep, this`paused
      modifies this`readPos, this`writePos, this`inFlight, this`filename, this`opEnd
      ensures Step(Sim(), cues) == Tick(s, Cfg(), inp)
      ensures RestartsNow(s) ==> pendingCacheDirty && freeSpaceCache.dirty
      ensures !RestartsNow(s)
              ==> pendingCacheDirty == old(pendingCacheDirty)
                  && freeSpaceCache.dirty == old(freeSpaceCache.dirty)
    {
      ghost var t := Sim();
      cues := [];
      match phase
      case Initializing =>
        InitializingStep();
        assert Tick(s, Cfg(), inp) == InitializingTick(t);
      case Analyzing =>
        cues := AnalyzingStep();
        assert Tick(s, Cfg(), inp) == AnalyzingTick(t, Cfg());
      case Defragmenting =>
        cues := DefragmentingStep(inp);
        assert Tick(s, Cfg(), inp) == DefragmentingTick(t, Cfg(), inp);
      case Finished =>
        FinishedStep(inp.layout);
        assert Tick(s, Cfg(), inp) == FinishedTick(t, Cfg(), inp.layout);
    }
  }
}
