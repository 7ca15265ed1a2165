/** The simulator's constants: the drive catalogue, animation timing and grid defaults (src/constants.rs). */
module Constants {
  import opened Wrappers
  import Float32

  // -- Disk drives ------------------------------------------------------------

  /** A simulated drive. `iops` paces the engine; capacity and cluster count are informational. */
  datatype DriveConfig = DriveConfig(letter: char, capacityMb: nat, clusterCount: nat, iops: nat)

  /** Standard hard disk, 2 IOPS. */
  const DRIVE_C: DriveConfig := DriveConfig('C', 2048, 4096, 2)
  /** Medium hard disk, 3 IOPS. */
  const DRIVE_D: DriveConfig := DriveConfig('D', 1024, 2048, 3)
  /** Floppy-like slow disk, 1 IOPS. */
  const DRIVE_E: DriveConfig := DriveConfig('E', 512, 1024, 1)
  /** Hybrid fast disk, 8 IOPS. */
  const DRIVE_F: DriveConfig := DriveConfig('F', 2048, 4096, 8)

  const ALL_DRIVES: seq<DriveConfig> := [DRIVE_C, DRIVE_D, DRIVE_E, DRIVE_F]
  const DEFAULT_DRIVE: DriveConfig := DRIVE_C

  /** The first configuration in `drives` whose letter is `letter` (`iter().find`). */
  function FindDrive(drives: seq<DriveConfig>, letter: char): (r: Option<DriveConfig>)
    ensures r.None? <==> forall i :: 0 <= i < |drives| ==> drives[i].letter != letter
    ensures r.Some? ==> r.value.letter == letter && r.value in drives
    ensures forall i ::
              (0 <= i < |drives| && drives[i].letter == letter
               && (forall j :: 0 <= j < i ==> drives[j].letter != letter))
              ==> r == Some(drives[i])
  {
    if drives == [] then None
    else if drives[0].letter == letter then Some(drives[0])
    else
      var r := FindDrive(drives[1..], letter);
      assert forall i :: 1 <= i < |drives| ==> drives[i] == drives[1..][i - 1];
      r
  }

  /** The catalogue drive with this letter; the match is case-sensitive. */
  function GetDriveByLetter(letter: char): (r: Option<DriveConfig>)
    ensures r.None? <==> forall i :: 0 <= i < |ALL_DRIVES| ==> ALL_DRIVES[i].letter != letter
    ensures r.Some? ==> r.value.letter == letter && r.value in ALL_DRIVES
  {
    FindDrive(ALL_DRIVES, letter)
  }

  /** The catalogue drive at position `index`, if there is one (`get`). */
  function GetDriveByIndex(index: nat): (r: Option<DriveConfig>)
    ensures r.Some? <==> index < |ALL_DRIVES|
    ensures r.Some? ==> r.value == ALL_DRIVES[index]
  {
    if index < |ALL_DRIVES| then Some(ALL_DRIVES[index]) else None
  }

  /** The lookups the source's own unit test checks. */
  lemma DriveLookupExamples()
    ensures GetDriveByLetter('C') == Some(DRIVE_C)
    ensures GetDriveByLetter('F') == Some(DRIVE_F)
    ensures GetDriveByLetter('Z') == None
    ensures GetDriveByLetter('c') == None
  {
    var d := ALL_DRIVES;
    assert d[3] == DRIVE_F && forall j :: 0 <= j < 3 ==> d[j].letter != 'F';
  }

  /** The catalogue is well formed: distinct letters, nonzero throughput, default first. */
  lemma CatalogueWellFormed()
    ensures forall i, j :: 0 <= i < j < |ALL_DRIVES| ==> ALL_DRIVES[i].letter != ALL_DRIVES[j].letter
    ensures forall i :: 0 <= i < |ALL_DRIVES| ==> ALL_DRIVES[i].iops >= 1
    ensures DEFAULT_DRIVE == ALL_DRIVES[0]
  {
  }

  /** Looking a catalogue drive up by its own letter finds the drive at the same index. */
  lemma {:induction false} LetterAndIndexAgree(i: nat)
    requires i < |ALL_DRIVES|
    ensures GetDriveByLetter(ALL_DRIVES[i].letter) == GetDriveByIndex(i)
  {
    CatalogueWellFormed();
    var d := ALL_DRIVES;
    assert forall j :: 0 <= j < i ==> d[j].letter != d[i].letter;
  }

  /** `max(iops, 1)`, the engine's guard against a zero throughput. */
  function MaxOne(n: nat): (r: nat)
    ensures r >= 1 && r >= n && (n >= 1 ==> r == n)
    ensures r == n || r == 1
  {
    if n >= 1 then n else 1
  }

  /** For catalogue drives the engine's `max(iops, 1)` is the drive's own throughput. */
  lemma CatalogueIopsNeedNoGuard(d: DriveConfig)
    requires d in ALL_DRIVES
    ensures MaxOne(d.iops) == d.iops
  {
  }

  // -- Animation timing (in ticks and milliseconds) ----------------------------

  const DEFAULT_TICK_RATE_MS: nat := 80
  const FAST_TICK_RATE_MS: nat := 40
  const SLOW_TICK_RATE_MS: nat := 150
  /** Ticks spent in the initialization phase. */
  const INIT_DURATION_TICKS: nat := 20
  /** Ticks spent in the finished phase before the run stops. */
  const FINISH_WAIT_TICKS: nat := 50

  // -- Grid defaults -------------------------------------------------------------

  const DEFAULT_GRID_WIDTH: nat := 78
  const DEFAULT_GRID_HEIGHT: nat := 16
  /** Fraction of clusters that start out holding data; restarts always use it. */
  const DEFAULT_FILL_PERCENT: real := 0.65
  /** Fraction of clusters that are bad. */
  const BAD_BLOCK_PERCENT: real := 0.02
  /** `DEFAULT_FILL_PERCENT` as the `f32` it compiles to, `10905190 / 2^24`. */
  const DEFAULT_FILL_F32: Float32.Fraction := Float32.Fraction(10905190, 24)
  /** `BAD_BLOCK_PERCENT` as the `f32` it compiles to, `10737418 / 2^29`. */
  const BAD_BLOCK_F32: Float32.Fraction := Float32.Fraction(10737418, 29)

  /** Each fraction's `f32` is the nearest one to its decimal literal, and lies strictly below it. */
  lemma StoredFractions()
    ensures Float32.StoresLiteral(DEFAULT_FILL_F32, DEFAULT_FILL_PERCENT)
    ensures Float32.StoresLiteral(BAD_BLOCK_F32, BAD_BLOCK_PERCENT)
    ensures DEFAULT_FILL_F32.significand as real < DEFAULT_FILL_PERCENT * Float32.Pow2(DEFAULT_FILL_F32.scale) as real
    ensures BAD_BLOCK_F32.significand as real < BAD_BLOCK_PERCENT * Float32.Pow2(BAD_BLOCK_F32.scale) as real
  {
    Float32.Pow2Values();
  }

  // -- Visual styles ---------------------------------------------------------------

  datatype DefragStyle = MsDos | Windows95 | Windows98 {
    /** The display name of the style. */
    function Name(): string {
      match this
      case MsDos => "MS-DOS 6.x Defrag"
      case Windows95 => "Windows 95 Defrag"
      case Windows98 => "Windows 98 Defrag"
    }
  }
}
