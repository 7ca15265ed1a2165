/** The simulated disk drives and the collection the application picks its drive from
    (src/app.rs:62-137, 339-343). */
module Drives {
  import opened Wrappers
  import opened Constants

  /** A drive: its configuration. The display name the source stores beside it is fixed by the
      configuration's letter, so it is derived here rather than stored. */
  datatype DiskDrive = DiskDrive(config: DriveConfig) {
    /** The display name `DiskDrive::from_config` gives the drive. */
    function Name(): string {
      match config.letter
      case 'C' => "Hard Disk (2GB, 2 IOPS)"
      case 'D' => "Hard Disk (1GB, 3 IOPS)"
      case 'E' => "Floppy Disk (512MB, 1 IOPS)"
      case 'F' => "SSHD (2GB, 8 IOPS)"
      case _ => "Unknown Drive"
    }

    function Iops(): nat { config.iops }
    function Letter(): char { config.letter }
  }

  /** `DiskDrive::from_config`: the drive keeps the configuration, and only the four catalogue
      letters get a name of their own. */
  function FromConfig(config: DriveConfig): (d: DiskDrive)
    ensures d.config == config
    ensures config.letter !in {'C', 'D', 'E', 'F'} <==> d.Name() == "Unknown Drive"
  {
    DiskDrive(config)
  }

  /** Wraps every configuration in order (`iter().map(from_config).collect()`). */
  function FromConfigs(configs: seq<DriveConfig>): (r: seq<DiskDrive>)
    ensures |r| == |configs|
    ensures forall i :: 0 <= i < |r| ==> r[i] == FromConfig(configs[i])
  {
    if configs == [] then [] else [FromConfig(configs[0])] + FromConfigs(configs[1..])
  }

  /** The first drive in `drives` with this letter (`iter().find`). */
  function FindByLetter(drives: seq<DiskDrive>, letter: char): (r: Option<DiskDrive>)
    ensures r.None? <==> forall i :: 0 <= i < |drives| ==> drives[i].Letter() != letter
    ensures r.Some? ==> r.value.Letter() == letter && r.value in drives
    ensures forall i ::
              (0 <= i < |drives| && drives[i].Letter() == letter
               && (forall j :: 0 <= j < i ==> drives[j].Letter() != letter))
              ==> r == Some(drives[i])
  {
    if drives == [] then None
    else if drives[0].Letter() == letter then Some(drives[0])
    else
      var r := FindByLetter(drives[1..], letter);
      assert forall i :: 1 <= i < |drives| ==> drives[i] == drives[1..][i - 1];
      r
  }

  /** The drives the simulator offers; the list is fixed once built. */
  datatype DiskDriveCollection = DiskDriveCollection(drives: seq<DiskDrive>) {
    function GetAll(): seq<DiskDrive> { drives }

    function GetByLetter(letter: char): (r: Option<DiskDrive>)
      ensures r.None? <==> forall i :: 0 <= i < |drives| ==> drives[i].Letter() != letter
      ensures r.Some? ==> r.value.Letter() == letter && r.value in drives
      ensures forall i ::
                (0 <= i < |drives| && drives[i].Letter() == letter
                 && (forall j :: 0 <= j < i ==> drives[j].Letter() != letter))
                ==> r == Some(drives[i])
    {
      FindByLetter(drives, letter)
    }

    function GetByIndex(index: nat): (r: Option<DiskDrive>)
      ensures r.Some? <==> index < |drives|
      ensures r.Some? ==> r.value == drives[index]
    {
      if index < |drives| then Some(drives[index]) else None
    }

    /** Drive C, the first one; the source indexes without a check, so the list must not be empty. */
    function GetDefault(): (r: DiskDrive)
      requires |drives| > 0
      ensures r == drives[0]
    {
      drives[0]
    }
  }

  /** `DiskDriveCollection::new`: one drive per catalogue entry. */
  function NewCollection(): (c: DiskDriveCollection)
    ensures |c.drives| == |ALL_DRIVES|
    ensures forall i :: 0 <= i < |ALL_DRIVES| ==> c.drives[i].config == ALL_DRIVES[i]
  {
    DiskDriveCollection(FromConfigs(ALL_DRIVES))
  }

  /** `char::to_ascii_uppercase`. */
  function AsciiUpper(ch: char): (r: char)
    ensures 'a' <= ch <= 'z' ==> r as int == ch as int - 32
    ensures !('a' <= ch <= 'z') ==> r == ch
  {
    if 'a' <= ch <= 'z' then (ch as int - 32) as char else ch
  }

  /** The drive the application starts on: the letter is upper-cased, and an unknown letter falls
      back to the default drive. */
  function SelectDrive(collection: DiskDriveCollection, letter: char): (d: DiskDrive)
    requires |collection.drives| > 0
    ensures collection.GetByLetter(AsciiUpper(letter)).Some? ==> d.Letter() == AsciiUpper(letter)
    ensures collection.GetByLetter(AsciiUpper(letter)).None? ==> d == collection.GetDefault()
    ensures d in collection.drives
    ensures collection.GetByLetter(AsciiUpper(letter)).Some? ==> d == collection.GetByLetter(AsciiUpper(letter)).value
  {
    collection.GetByLetter(AsciiUpper(letter)).GetOr(collection.GetDefault())
  }

  /** Looking a letter up among the wrapped configurations finds the wrapping of what the lookup
      among the configurations finds. */
  lemma {:induction false} FindByLetterAgrees(configs: seq<DriveConfig>, letter: char)
    ensures FindByLetter(FromConfigs(configs), letter).None? <==> FindDrive(configs, letter).None?
    ensures FindByLetter(FromConfigs(configs), letter).Some?
            ==> FindByLetter(FromConfigs(configs), letter).value.config == FindDrive(configs, letter).value
    decreases |configs|
  {
    if configs != [] && configs[0].letter != letter {
      FindByLetterAgrees(configs[1..], letter);
      assert FromConfigs(configs)[1..] == FromConfigs(configs[1..]);
    }
  }

  /** The collection's lookups agree with the catalogue's: same configuration by letter and by
      index, and the default drive is the catalogue's default. */
  lemma CollectionAgreesWithCatalogue(letter: char, index: nat)
    ensures NewCollection().GetByLetter(letter).None? <==> GetDriveByLetter(letter).None?
    ensures NewCollection().GetByLetter(letter).Some?
            ==> NewCollection().GetByLetter(letter).value.config == GetDriveByLetter(letter).value
    ensures NewCollection().GetByIndex(index).Some? <==> GetDriveByIndex(index).Some?
    ensures NewCollection().GetByIndex(index).Some?
            ==> NewCollection().GetByIndex(index).value.config == GetDriveByIndex(index).value
    ensures NewCollection().GetDefault().config == DEFAULT_DRIVE
  {
    FindByLetterAgrees(ALL_DRIVES, letter);
  }

  /** Starting on drive 'f' picks the hybrid drive, and an unknown letter picks drive C. */
  lemma SelectDriveExamples()
    ensures SelectDrive(NewCollection(), 'f').config == DRIVE_F
    ensures SelectDrive(NewCollection(), 'f').Name() == "SSHD (2GB, 8 IOPS)"
    ensures SelectDrive(NewCollection(), 'z').config == DRIVE_C
  {
    assert AsciiUpper('f') == 'F' && AsciiUpper('z') == 'Z';
    DriveLookupExamples();
    SelectAgreesWithCatalogue('f');
    SelectAgreesWithCatalogue('z');
    assert SelectDrive(NewCollection(), 'f') == DiskDrive(DRIVE_F);
    HybridDriveName();
  }

  /** The drive the application starts on is the catalogue's entry for the upper-cased letter, or
      the default drive when the catalogue has none. */
  lemma SelectAgreesWithCatalogue(letter: char)
    ensures GetDriveByLetter(AsciiUpper(letter)).Some?
            ==> SelectDrive(NewCollection(), letter).config == GetDriveByLetter(AsciiUpper(letter)).value
    ensures GetDriveByLetter(AsciiUpper(letter)).None?
            ==> SelectDrive(NewCollection(), letter).config == DEFAULT_DRIVE
  {
    CollectionAgreesWithCatalogue(AsciiUpper(letter), 0);
  }

  lemma HybridDriveName()
    ensures DiskDrive(DRIVE_F).Name() == "SSHD (2GB, 8 IOPS)"
  {
  }
}
