/**
 * The host queries of src/utils.rs, reduced to the text and enum handling
 * around them: which line and which token of the `df`, `lsblk` and
 * `diskutil` output is used, the fallbacks to "unknown" and to a 4096-byte
 * sector, the Windows drive-type names, and the core a pinned worker
 * thread is given.
 *
 * The commands and Windows calls themselves are not modelled: what each
 * returned is a parameter.
 */
module Utils {
  import opened Wrappers
  import opened Strings
  import opened Arith

  /** The sector size assumed whenever the host does not say. */
  const DEFAULT_SECTOR_SIZE: U64 := 4096

  /** What running a command gave: it could not be run, its output was not UTF-8, or its text. */
  datatype Output = Failed | NotText | Text(stdout: string)

  // ---------------------------------------------------------------------
  // Device of a path (`df <path>`)

  lemma UnknownIsWord()
    ensures forall i :: 0 <= i < |"unknown"| ==> !IsSpace("unknown"[i])
  {
  }

  /** The first whitespace token of the second line, or "unknown". */
  function DeviceIdOfText(source: string): (r: string)
    ensures r != [] && forall i :: 0 <= i < |r| ==> !IsSpace(r[i])
  {
    var lines := Split(source, "\n");
    if |lines| > 1 then
      match FirstToken(lines[1])
      case Some(token) => token
      case None => UnknownIsWord(); "unknown"
    else UnknownIsWord(); "unknown"
  }

  /** `get_device_id_unix`: output that is not text is read as the text "unknown". */
  function DeviceId(df: Output): (r: string)
    ensures r != [] && forall i :: 0 <= i < |r| ==> !IsSpace(r[i])
    ensures df.Failed? ==> r == "unknown"
  {
    match df
    case Failed => "unknown"
    case NotText => DeviceIdOfText("unknown")
    case Text(source) => DeviceIdOfText(source)
  }

  /** Output without a line break, the replacement text "unknown" among it, names no device. */
  lemma DeviceIdOneLine(source: string)
    requires '\n' !in source
    ensures DeviceIdOfText(source) == "unknown"
    ensures DeviceId(NotText) == "unknown"
  {
    SplitNoSep(source, '\n');
    SplitNoSep("unknown", '\n');
  }

  /** Under `df`'s header line, the device is the first word of the next line, if it has one. */
  lemma DeviceIdSecondLine(header: string, line: string, tail: string)
    requires '\n' !in header && '\n' !in line
    requires tail == [] || tail[0] == '\n'
    ensures DeviceIdOfText(header + "\n" + line + tail) ==
      match FirstToken(line) case Some(token) => token case None => "unknown"
  {
    SecondLineOf(header, line, tail);
  }

  // ---------------------------------------------------------------------
  // Sector size on macOS (`diskutil info <device>`)

  /** The label of the line `diskutil` reports the block size on. */
  const BLOCK_SIZE_LABEL := "Device Block Size"

  predicate IsBlockSizeLine(line: string) {
    BLOCK_SIZE_LABEL <= Trim(line)
  }

  /**
   * The second-from-last space-separated token parsed as a number, 0 when
   * it does not parse. A block-size line always has that token
   * (`BlockSizeLineSplits`); the last branch is there only to make the
   * function total.
   */
  function BlockSizeOf(line: string): U64 {
    var parts := Split(line, " ");
    if |parts| >= 2 then
      match ParseU64(parts[|parts| - 2])
      case Some(size) => size
      case None => 0
    else 0
  }

  /** The label holds a space, so a block-size line splits into at least two pieces. */
  lemma BlockSizeLineSplits(line: string)
    requires IsBlockSizeLine(line)
    ensures |Split(line, " ")| >= 2
  {
    var t := TrimStart(line);
    var u := TrimEnd(t);
    var k := |line| - |t| + 6;
    assert 6 < |u| && u[6] == ' ' by {
      assert u == Trim(line);
      assert BLOCK_SIZE_LABEL[6] == ' ';
    }
    assert k < |line| && line[k] == ' ' by {
      assert t[6] == u[6];
    }
    assert line[k..k + 1] == " ";
    ContainsAt(line, " ", k);
    SplitManyIffContains(line, " ");
  }

  /** The block size of the last block-size line, 0 when there is none. */
  function LastBlockSize(lines: seq<string>): U64 {
    if lines == [] then 0
    else if IsBlockSizeLine(lines[|lines| - 1]) then BlockSizeOf(lines[|lines| - 1])
    else LastBlockSize(lines[..|lines| - 1])
  }

  /** `LastBlockSize` is the size on the block-size line no later line overrides. */
  lemma {:induction false} LastBlockSizeWins(lines: seq<string>, k: nat)
    requires k < |lines| && IsBlockSizeLine(lines[k])
    requires forall j :: k < j < |lines| ==> !IsBlockSizeLine(lines[j])
    ensures LastBlockSize(lines) == BlockSizeOf(lines[k])
    decreases |lines|
  {
    if k < |lines| - 1 {
      LastBlockSizeWins(lines[..|lines| - 1], k);
    }
  }

  /** With no block-size line at all the scan finds 0. */
  lemma {:induction false} LastBlockSizeNone(lines: seq<string>)
    requires forall j :: 0 <= j < |lines| ==> !IsBlockSizeLine(lines[j])
    ensures LastBlockSize(lines) == 0
    decreases |lines|
  {
    if lines != [] {
      LastBlockSizeNone(lines[..|lines| - 1]);
    }
  }

  /** The number in `diskutil`'s "... Block Size: <n> Bytes" line is the one read. */
  lemma BlockSizeOfReport(head: string, size: U64)
    ensures BlockSizeOf(head + " " + Decimal(size) + " Bytes") == size
  {
    var d := Decimal(size);
    assert ' ' !in d by {
      forall i | 0 <= i < |d| ensures d[i] != ' ' {
        assert IsDigit(d[i]);
      }
    }
    var line := head + " " + d + " Bytes";
    assert " " == [' '];
    assert line == (head + [' '] + d) + [' '] + "Bytes";
    assert ' ' !in "Bytes";
    SplitLastFree(head + [' '] + d, ' ', "Bytes");
    SplitLastFree(head, ' ', d);
    var parts := Split(line, " ");
    assert parts == Split(head, [' ']) + [d] + ["Bytes"];
    assert parts[|parts| - 2] == d;
    ParseDecimal(size);
  }

  /**
   * One block-size line of the scan: its number, 0 when that does not
   * parse; the size so far stays only when the line has no such token,
   * which never happens.
   */
  method ReadBlockSizeLine(line: string, sizeSoFar: U64) returns (size: U64)
    requires IsBlockSizeLine(line)
    ensures size == BlockSizeOf(line)
  {
    size := sizeSoFar;
    var parts := Split(line, " ");
    BlockSizeLineSplits(line);
    if |parts| >= 2 {
      var sizeStr := parts[|parts| - 2];
      match ParseU64(sizeStr)
      case Some(n) =>
        size := n;
      case None =>
        size := 0;
    }
  }

  /** The scan of `get_sector_size_macos`: every block-size line overwrites the size. */
  method ScanBlockSize(lines: seq<string>) returns (sectorSize: U64)
    ensures sectorSize == LastBlockSize(lines)
  {
    sectorSize := 0;
    for i := 0 to |lines|
      invariant sectorSize == LastBlockSize(lines[..i])
    {
      assert lines[..i + 1][..i] == lines[..i];
      if IsBlockSizeLine(lines[i]) {
        sectorSize := ReadBlockSizeLine(lines[i], sectorSize);
      }
    }
    assert lines[..|lines|] == lines;
  }

  /** The block size `diskutil`'s text reports, 4096 when it reports none or 0. */
  function MacSectorSizeOfText(source: string): U64 {
    var size := LastBlockSize(Lines(source));
    if size == 0 then DEFAULT_SECTOR_SIZE else size
  }

  /** `get_sector_size_macos`; unreadable output is read as no text at all. */
  function MacSectorSize(diskutil: Output): U64 {
    match diskutil
    case Failed => DEFAULT_SECTOR_SIZE
    case NotText => MacSectorSizeOfText("")
    case Text(source) => MacSectorSizeOfText(source)
  }

  method SectorSizeMac(diskutil: Output) returns (size: U64)
    ensures size == MacSectorSize(diskutil)
    ensures size > 0
  {
    if diskutil.Failed? {
      return DEFAULT_SECTOR_SIZE;
    }
    var source := if diskutil.Text? then diskutil.stdout else "";
    size := ScanBlockSize(Lines(source));
    if size == 0 {
      size := DEFAULT_SECTOR_SIZE;
    }
  }

  /** Only a readable, positive block size is ever reported; otherwise 4096. */
  lemma MacSectorSizeCases(diskutil: Output)
    ensures MacSectorSize(diskutil) > 0
    ensures MacSectorSize(diskutil) != DEFAULT_SECTOR_SIZE ==>
      diskutil.Text? && MacSectorSize(diskutil) == LastBlockSize(Lines(diskutil.stdout))
    ensures diskutil.NotText? ==> MacSectorSize(diskutil) == DEFAULT_SECTOR_SIZE
  {
    LinesEmpty();
  }

  // ---------------------------------------------------------------------
  // Sector size elsewhere on unix (`lsblk <device> -o PHY-SeC`)

  /**
   * `get_sector_size_unix`: the trimmed second line parsed as a number,
   * else 4096. A failed run gives no text; output that is not UTF-8 is
   * read as the text "4096".
   */
  function LsblkSectorSize(lsblk: Output): U64 {
    var source := match lsblk case Failed => "" case NotText => "4096" case Text(s) => s;
    var lines := Split(source, "\n");
    var sizeStr := if |lines| > 1 then Trim(lines[1]) else "4096";
    match ParseU64(sizeStr)
    case Some(size) => size
    case None => DEFAULT_SECTOR_SIZE
  }

  lemma ParseDefault()
    ensures ParseU64("4096") == Some(DEFAULT_SECTOR_SIZE)
  {
    ParseDecimal(DEFAULT_SECTOR_SIZE);
    assert Decimal(4096) == "4096";
  }

  /** Without a second line (empty output, unreadable output, a failed run) the size is 4096. */
  lemma LsblkOneLine(lsblk: Output)
    requires lsblk.Text? ==> '\n' !in lsblk.stdout
    ensures LsblkSectorSize(lsblk) == DEFAULT_SECTOR_SIZE
  {
    ParseDefault();
    match lsblk
    case Failed => SplitNoSep("", '\n');
    case NotText => SplitNoSep("4096", '\n');
    case Text(s) => SplitNoSep(s, '\n');
  }

  /** Under the column header, the number on the next line is the size, spaces around it ignored. */
  lemma LsblkSecondLine(header: string, line: string, tail: string)
    requires '\n' !in header && '\n' !in line
    requires tail == [] || tail[0] == '\n'
    ensures LsblkSectorSize(Text(header + "\n" + line + tail)) ==
      match ParseU64(Trim(line)) case Some(size) => size case None => DEFAULT_SECTOR_SIZE
  {
    SecondLineOf(header, line, tail);
  }

  /** Unlike the macOS path, a reported 0 is passed on as the sector size. */
  lemma LsblkPassesZero(header: string)
    requires '\n' !in header
    ensures LsblkSectorSize(Text(header + "\n" + Decimal(0))) == 0
  {
    var zero := Decimal(0);
    var s := header + "\n" + zero;
    assert zero == ['0'];
    assert Split(s, "\n")[1] == zero && |Split(s, "\n")| > 1 by {
      assert s == header + "\n" + zero + [];
      SecondLineOf(header, zero, []);
    }
    assert Trim(zero) == zero by {
      TrimUnchanged(zero);
    }
    assert ParseU64(zero) == Some(0) by {
      ParseDecimal(0);
    }
  }

  // ---------------------------------------------------------------------
  // Dispatch by platform

  datatype Platform = Android | MacOs | OtherUnix | Windows

  /**
   * `get_sector_size`. On Windows, `bytesPerSector` is what the disk
   * query gave, None when the parent path or the query failed.
   */
  function SectorSize(platform: Platform, diskutil: Output, lsblk: Output, bytesPerSector: Option<U32>): (r: U64)
    ensures platform == Android ==> r == DEFAULT_SECTOR_SIZE
    ensures platform == MacOs ==> r == MacSectorSize(diskutil)
    ensures platform == OtherUnix ==> r == LsblkSectorSize(lsblk)
    ensures platform == Windows && bytesPerSector.None? ==> r == DEFAULT_SECTOR_SIZE
  {
    match platform
    case Android => DEFAULT_SECTOR_SIZE
    case MacOs => MacSectorSize(diskutil)
    case OtherUnix => LsblkSectorSize(lsblk)
    case Windows =>
      match bytesPerSector
      case Some(bytes) => bytes
      case None => DEFAULT_SECTOR_SIZE
  }

  // ---------------------------------------------------------------------
  // Bus type

  /**
   * Unix `get_bus_type`: on linux, the first line of `lsblk -ndo TRAN`
   * trimmed and lower-cased (empty when there is no line); "unknown"
   * elsewhere or when the output is unavailable.
   */
  function BusTypeUnix(isLinux: bool, lsblk: Output): (r: string)
    ensures !isLinux || !lsblk.Text? ==> r == "unknown"
    ensures isLinux && lsblk.Text? ==>
      && (r == [] || (!IsSpace(r[0]) && !IsSpace(r[|r| - 1])))
      && forall i :: 0 <= i < |r| ==> !('A' <= r[i] <= 'Z')
  {
    if isLinux && lsblk.Text? then
      var lines := Lines(lsblk.stdout);
      var first := if lines == [] then "" else lines[0];
      TrimLower(first)
    else "unknown"
  }

  function TrimLower(s: string): (r: string)
    ensures r == [] || (!IsSpace(r[0]) && !IsSpace(r[|r| - 1]))
    ensures forall i :: 0 <= i < |r| ==> !('A' <= r[i] <= 'Z')
  {
    var t := Trim(s);
    var r := Lower(t);
    LowerAt(t);
    assert forall c :: IsSpace(c) <==> IsSpace(LowerChar(c));
    r
  }

  /** Only the transport on the first line counts, whatever follows. */
  lemma BusTypeFirstLine(line: string, rest: string)
    requires '\n' !in line
    ensures BusTypeUnix(true, Text(line + "\n" + rest)) == TrimLower(StripCr(line))
  {
    LinesFirst(line, rest);
  }

  /** Empty output gives the empty bus type, not "unknown". */
  lemma BusTypeEmptyOutput()
    ensures BusTypeUnix(true, Text("")) == []
  {
    LinesEmpty();
  }

  /** The `GetDriveTypeA` codes the miner names. */
  const DRIVE_REMOVABLE: U32 := 2
  const DRIVE_FIXED: U32 := 3
  const DRIVE_REMOTE: U32 := 4
  const DRIVE_CDROM: U32 := 5
  const DRIVE_RAMDISK: U32 := 6

  /** Windows `get_bus_type`; `driveType` is None when the parent path could not be formed. */
  function BusTypeWindows(driveType: Option<U32>): (r: string)
    ensures r in {"usb", "fixed", "remote", "cdrom", "ramdisk", "unknown"}
  {
    match driveType
    case None => "unknown"
    case Some(code) =>
      if code == DRIVE_REMOVABLE then "usb"
      else if code == DRIVE_FIXED then "fixed"
      else if code == DRIVE_REMOTE then "remote"
      else if code == DRIVE_CDROM then "cdrom"
      else if code == DRIVE_RAMDISK then "ramdisk"
      else "unknown"
  }

  /** The drive-type code a bus name stands for; "unknown" stands for none. */
  function DriveTypeOf(bus: string): Option<U32> {
    if bus == "usb" then Some(DRIVE_REMOVABLE)
    else if bus == "fixed" then Some(DRIVE_FIXED)
    else if bus == "remote" then Some(DRIVE_REMOTE)
    else if bus == "cdrom" then Some(DRIVE_CDROM)
    else if bus == "ramdisk" then Some(DRIVE_RAMDISK)
    else None
  }

  /** The five known codes get five different names, and every other code reads "unknown". */
  lemma BusTypeWindowsInverse(code: U32)
    ensures DRIVE_REMOVABLE <= code <= DRIVE_RAMDISK ==> DriveTypeOf(BusTypeWindows(Some(code))) == Some(code)
    ensures !(DRIVE_REMOVABLE <= code <= DRIVE_RAMDISK) ==> BusTypeWindows(Some(code)) == "unknown"
  {
  }

  /** Each name the mapping produces, other than "unknown", comes from exactly its code. */
  lemma DriveTypeOfInverse(bus: string)
    requires DriveTypeOf(bus).Some?
    ensures BusTypeWindows(DriveTypeOf(bus)) == bus
  {
  }

  // ---------------------------------------------------------------------
  // Thread pinning

  /** The cores to pin to: only asked for when pinning is requested; None when detection failed. */
  function CoreIds(threadPinning: bool, detected: Option<seq<nat>>): seq<nat> {
    if threadPinning then
      match detected
      case Some(ids) => ids
      case None => []
    else []
  }

  predicate HasPinning(threadPinning: bool, coreIds: seq<nat>) {
    threadPinning && coreIds != []
  }

  /** The position in the core list worker `id` is pinned to, round-robin. */
  function PinIndex(id: nat, coreCount: nat): (r: nat)
    requires coreCount > 0
    ensures r < coreCount
  {
    id % coreCount
  }

  /** Pinning is active exactly when requested and at least one core was found. */
  lemma PinningActive(threadPinning: bool, detected: Option<seq<nat>>)
    ensures HasPinning(threadPinning, CoreIds(threadPinning, detected)) <==>
      threadPinning && detected.Some? && detected.value != []
  {
  }

  /**
   * Round-robin: workers `coreCount` apart share a core, and any
   * `coreCount` consecutive workers are spread over different cores.
   */
  lemma PinIndexRoundRobin(id: nat, other: nat, coreCount: nat)
    requires coreCount > 0
    ensures PinIndex(id + coreCount, coreCount) == PinIndex(id, coreCount)
    ensures id < other < id + coreCount ==> PinIndex(id, coreCount) != PinIndex(other, coreCount)
  {
    var q, r := id / coreCount, id % coreCount;
    assert id == q * coreCount + r;
    assert id + coreCount == (q + 1) * coreCount + r;
    ModUnique(id + coreCount, coreCount, q + 1, r);
    if id < other < id + coreCount {
      var d := other - id;
      if r + d < coreCount {
        assert other == q * coreCount + (r + d);
        ModUnique(other, coreCount, q, r + d);
      } else {
        assert other == (q + 1) * coreCount + (r + d - coreCount);
        ModUnique(other, coreCount, q + 1, r + d - coreCount);
      }
    }
  }
}
