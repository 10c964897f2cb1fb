/** The hard disk: a bounds-checked array of 10 tracks x 10 cylinders x 100 sectors,
    each holding a string, plus the three head positions. The disk is a standalone
    store: the DMA controller does not read or write it. */
module Disk {
  import opened Words
  import opened MachineState

  /** Characters per sector buffer, without the terminating NUL (8 digits and a sign). */
  const SECTOR_SIZE := 9
  const SECTOR_COUNT := TRACKS * CYLINDERS * SECTORS_PER_CYLINDER

  /** What read_sector copies into the caller's buffer for a bad address. */
  const ERROR: string := "ERROR"

  /** The contents of a freshly initialised or formatted sector. */
  const EMPTY_SECTOR: string := "00000000"

  predicate InRange(t: int, c: int, s: int) {
    0 <= t < TRACKS && 0 <= c < CYLINDERS && 0 <= s < SECTORS_PER_CYLINDER
  }

  /** The position of a sector when the three coordinates are laid out row by row. */
  function Index(t: int, c: int, s: int): (i: nat)
    requires InRange(t, c, s)
    ensures i < SECTOR_COUNT
  {
    (t * CYLINDERS + c) * SECTORS_PER_CYLINDER + s
  }

  function TrackOf(i: nat): int {
    i / (CYLINDERS * SECTORS_PER_CYLINDER)
  }

  function CylinderOf(i: nat): int {
    (i / SECTORS_PER_CYLINDER) % CYLINDERS
  }

  function SectorOf(i: nat): int {
    i % SECTORS_PER_CYLINDER
  }

  /** Every position is the index of the coordinates it decomposes into. */
  lemma IndexCompose(i: nat)
    requires i < SECTOR_COUNT
    ensures InRange(TrackOf(i), CylinderOf(i), SectorOf(i))
    ensures Index(TrackOf(i), CylinderOf(i), SectorOf(i)) == i
  {
    var q := i / SECTORS_PER_CYLINDER;
    assert i == q * SECTORS_PER_CYLINDER + SectorOf(i);
    assert q == TrackOf(i) * CYLINDERS + CylinderOf(i);
  }

  /** The coordinates of an index are the ones it was made from, so distinct
      sectors never share a position. */
  lemma IndexDecompose(t: int, c: int, s: int)
    requires InRange(t, c, s)
    ensures TrackOf(Index(t, c, s)) == t && CylinderOf(Index(t, c, s)) == c
    ensures SectorOf(Index(t, c, s)) == s
  {
    var q := t * CYLINDERS + c;
    var i := Index(t, c, s);
    assert i / SECTORS_PER_CYLINDER == q;
    assert q / CYLINDERS == t && q % CYLINDERS == c;
    assert i / (CYLINDERS * SECTORS_PER_CYLINDER) == t;
  }

  type Image = img: seq<string> | |img| == SECTOR_COUNT
    witness seq(SECTOR_COUNT, _ => EMPTY_SECTOR)

  /** The disk as a value: the sectors in index order and the head positions. */
  datatype DiskState = DiskState(image: Image, currentTrack: int, currentCylinder: int, currentSector: int)

  /** Every sector "00000000". */
  function FormattedImage(): (img: Image)
    ensures forall i :: 0 <= i < SECTOR_COUNT ==> img[i] == EMPTY_SECTOR
  {
    seq(SECTOR_COUNT, _ => EMPTY_SECTOR)
  }

  /** init_disk: the heads at 0 and every sector empty. */
  function InitialDisk(): DiskState {
    DiskState(FormattedImage(), 0, 0, 0)
  }

  /** format_disk: every sector empty; the heads are not moved. */
  function Format(d: DiskState): DiskState {
    d.(image := FormattedImage())
  }

  /** read_sector: the stored string, or "ERROR" outside the geometry. */
  function Read(d: DiskState, t: int, c: int, s: int): string {
    if InRange(t, c, s) then d.image[Index(t, c, s)] else ERROR
  }

  /** write_sector: outside the geometry nothing changes; inside, the data is stored
      whatever its length (a length other than 8 is only logged). */
  function Write(d: DiskState, t: int, c: int, s: int, data: string): DiskState {
    if InRange(t, c, s) then d.(image := d.image[Index(t, c, s) := data]) else d
  }

  /** A read outside the geometry yields "ERROR"; a read never changes the disk,
      since it is a query on the value. */
  lemma ReadOutOfRange(d: DiskState, t: int, c: int, s: int)
    requires !InRange(t, c, s)
    ensures Read(d, t, c, s) == ERROR
  {
  }

  /** A write outside the geometry changes nothing at all. */
  lemma WriteOutOfRange(d: DiskState, t: int, c: int, s: int, data: string)
    requires !InRange(t, c, s)
    ensures Write(d, t, c, s, data) == d
  {
  }

  /** Reading a sector just written returns the data written, of whatever length. */
  lemma ReadAfterWrite(d: DiskState, t: int, c: int, s: int, data: string)
    requires InRange(t, c, s)
    ensures Read(Write(d, t, c, s, data), t, c, s) == data
  {
  }

  /** A write changes only the addressed sector and never the heads. */
  lemma WriteOnlyAddressed(d: DiskState, t: int, c: int, s: int, data: string, t': int, c': int, s': int)
    requires InRange(t, c, s) && (t', c', s') != (t, c, s)
    ensures Read(Write(d, t, c, s, data), t', c', s') == Read(d, t', c', s')
    ensures Write(d, t, c, s, data).currentTrack == d.currentTrack
    ensures Write(d, t, c, s, data).currentCylinder == d.currentCylinder
    ensures Write(d, t, c, s, data).currentSector == d.currentSector
  {
    if InRange(t', c', s') {
      IndexDecompose(t, c, s);
      IndexDecompose(t', c', s');
    }
  }

  /** After format_disk every sector in the geometry reads "00000000" and the heads
      are where they were. */
  lemma FormatClears(d: DiskState, t: int, c: int, s: int)
    requires InRange(t, c, s)
    ensures Read(Format(d), t, c, s) == EMPTY_SECTOR
    ensures (Format(d).currentTrack, Format(d).currentCylinder, Format(d).currentSector) ==
            (d.currentTrack, d.currentCylinder, d.currentSector)
  {
  }

  /** After init_disk the heads are at 0 and every sector reads "00000000". */
  lemma InitialDiskEmpty(t: int, c: int, s: int)
    requires InRange(t, c, s)
    ensures Read(InitialDisk(), t, c, s) == EMPTY_SECTOR
    ensures InitialDisk().currentTrack == 0 && InitialDisk().currentCylinder == 0
    ensures InitialDisk().currentSector == 0
  {
  }

  /** The disk of read_sector, write_sector, init_disk and format_disk: the sectors live
      in a three-dimensional array that the methods update in place. */
  class HardDisk {
    const data: array3<string>
    var currentTrack: int
    var currentCylinder: int
    var currentSector: int

    ghost predicate Valid()
      reads this
    {
      data.Length0 == TRACKS && data.Length1 == CYLINDERS && data.Length2 == SECTORS_PER_CYLINDER
    }

    /** The disk as a value. */
    ghost function State(): DiskState
      reads this, data
      requires Valid()
    {
      DiskState(
        seq(SECTOR_COUNT, i requires 0 <= i < SECTOR_COUNT reads data =>
          IndexCompose(i);
          data[TrackOf(i), CylinderOf(i), SectorOf(i)]),
        currentTrack, currentCylinder, currentSector)
    }

    /** The value of the sector at in-range coordinates is the array's element. */
    lemma StateAt(t: int, c: int, s: int)
      requires Valid() && InRange(t, c, s)
      ensures State().image[Index(t, c, s)] == data[t, c, s]
    {
      IndexDecompose(t, c, s);
    }

    constructor ()
      ensures Valid() && fresh(data)
      ensures State() == InitialDisk()
    {
      data := new string[TRACKS, CYLINDERS, SECTORS_PER_CYLINDER]((_, _, _) => EMPTY_SECTOR);
      new;
      InitDisk();
    }

    /** The triple loop that stores "00000000" in every sector. */
    method ClearSectors()
      requires Valid()
      modifies data
      ensures Valid() && State() == old(State()).(image := FormattedImage())
    {
      for t := 0 to TRACKS
        invariant forall t', c', s' :: 0 <= t' < t && 0 <= c' < CYLINDERS && 0 <= s' < SECTORS_PER_CYLINDER ==>
          data[t', c', s'] == EMPTY_SECTOR
      {
        for c := 0 to CYLINDERS
          invariant forall t', c', s' :: 0 <= t' < t && 0 <= c' < CYLINDERS && 0 <= s' < SECTORS_PER_CYLINDER ==>
            data[t', c', s'] == EMPTY_SECTOR
          invariant forall c', s' :: 0 <= c' < c && 0 <= s' < SECTORS_PER_CYLINDER ==> data[t, c', s'] == EMPTY_SECTOR
        {
          for s := 0 to SECTORS_PER_CYLINDER
            invariant forall t', c', s' :: 0 <= t' < t && 0 <= c' < CYLINDERS && 0 <= s' < SECTORS_PER_CYLINDER ==>
              data[t', c', s'] == EMPTY_SECTOR
            invariant forall c', s' :: 0 <= c' < c && 0 <= s' < SECTORS_PER_CYLINDER ==> data[t, c', s'] == EMPTY_SECTOR
            invariant forall s' :: 0 <= s' < s ==> data[t, c, s'] == EMPTY_SECTOR
          {
            data[t, c, s] := EMPTY_SECTOR;
          }
        }
      }
      forall i | 0 <= i < SECTOR_COUNT
        ensures State().image[i] == EMPTY_SECTOR
      {
        IndexCompose(i);
      }
      assert State().image == FormattedImage();
    }

    /** init_disk */
    method InitDisk()
      requires Valid()
      modifies this, data
      ensures Valid() && State() == InitialDisk()
    {
      currentTrack := 0;
      currentCylinder := 0;
      currentSector := 0;
      ClearSectors();
    }

    /** format_disk */
    method FormatDisk()
      requires Valid()
      modifies data
      ensures Valid() && State() == Format(old(State()))
    {
      ClearSectors();
    }

    /** read_sector: the returned string is what the caller's buffer receives. */
    method ReadSector(t: int, c: int, s: int) returns (buffer: string)
      requires Valid()
      ensures buffer == Read(State(), t, c, s)
    {
      if !InRange(t, c, s) {
        return ERROR;
      }
      StateAt(t, c, s);
      buffer := data[t, c, s];
    }

    /** write_sector */
    method WriteSector(t: int, c: int, s: int, sectorData: string)
      requires Valid()
      modifies data
      ensures Valid() && State() == Write(old(State()), t, c, s, sectorData)
    {
      if !InRange(t, c, s) {
        return;
      }
      ghost var before := State();
      data[t, c, s] := sectorData;
      forall i | 0 <= i < SECTOR_COUNT
        ensures State().image[i] == before.image[Index(t, c, s) := sectorData][i]
      {
        IndexCompose(i);
        IndexDecompose(t, c, s);
      }
      assert State().image == before.image[Index(t, c, s) := sectorData];
    }
  }
}
