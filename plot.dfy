/**
 * Plot files (src/plot.rs): the `<account>_<start nonce>_<nonces>` file
 * name, the size check against NONCE_SIZE, the nonce-range overlap test,
 * and the read cursor that walks one scoop of a plot in buffer-sized
 * chunks, optionally aligned to the disk's sector size for direct I/O.
 *
 * The file handle, its size, the outcome of every open, seek and read, and
 * the sector size are parameters.
 */
module Plots {
  import opened Wrappers
  import opened Strings
  import opened Arith

  const SCOOPS_IN_NONCE: nat := 4096
  const SHABAL256_HASH_SIZE: nat := 32
  const SCOOP_SIZE: nat := SHABAL256_HASH_SIZE * 2
  const NONCE_SIZE: nat := SCOOP_SIZE * SCOOPS_IN_NONCE

  /** 2^64: u64 multiplication wraps modulo this in a release build. */
  const U64_MODULUS: nat := U64_MAX + 1

  datatype Meta = Meta(accountId: U64, startNonce: U64, nonces: U64, name: string)

  // ---------------------------------------------------------------------
  // Overlap of nonce ranges

  /** Whether the half-open ranges [start, start + nonces) of two plots intersect. */
  function OverlapsWith(a: Meta, b: Meta): bool {
    a.startNonce < b.startNonce + b.nonces && b.startNonce < a.startNonce + a.nonces
  }

  /** The number of nonces two overlapping plots share. */
  function SharedNonces(a: Meta, b: Meta): int {
    var endA, endB := a.startNonce + a.nonces, b.startNonce + b.nonces;
    (if endA < endB then endA else endB) - (if a.startNonce < b.startNonce then b.startNonce else a.startNonce)
  }

  predicate Covers(m: Meta, n: nat) {
    m.startNonce <= n < m.startNonce + m.nonces
  }

  /**
   * Two non-empty plots overlap exactly when some nonce lies in both; the
   * test is symmetric and the shared count it reports is positive.
   */
  lemma OverlapMeansSharedNonce(a: Meta, b: Meta)
    requires a.nonces > 0 && b.nonces > 0
    ensures OverlapsWith(a, b) <==> exists n: nat :: Covers(a, n) && Covers(b, n)
    ensures OverlapsWith(a, b) == OverlapsWith(b, a)
    ensures OverlapsWith(a, b) ==> SharedNonces(a, b) > 0 && SharedNonces(a, b) == SharedNonces(b, a)
  {
    if OverlapsWith(a, b) {
      var n: nat := if a.startNonce < b.startNonce then b.startNonce else a.startNonce;
      assert Covers(a, n);
      assert Covers(b, n);
    }
  }

  /** An empty plot whose start lies inside another plot's range is still reported as overlapping it. */
  lemma EmptyPlotInsideOverlaps(a: Meta, b: Meta)
    requires b.nonces == 0 && a.startNonce < b.startNonce < a.startNonce + a.nonces
    ensures OverlapsWith(a, b) && SharedNonces(a, b) == 0
    ensures !exists n: nat :: Covers(a, n) && Covers(b, n)
  {
  }

  // ---------------------------------------------------------------------
  // File name and size

  /** Why a plot file cannot be used; the last three are failed reopens, seeks and chunk reads. */
  datatype PlotError =
    | NotAFile
    | WrongFormat
    | BadNumber
    | MetadataFailed
    | WrongSize(expected: nat, actual: U64)
    | OpenFailed
    | SeekFailed
    | IoFailed

  /** The three numbers of a plot file name, or why it is not one. */
  function ParsePlotName(fileName: string): Result<(U64, U64, U64), PlotError> {
    var parts := Split(fileName, "_");
    if |parts| != 3 then Err(WrongFormat)
    else
      match (ParseU64(parts[0]), ParseU64(parts[1]), ParseU64(parts[2]))
      case (Some(a), Some(s), Some(n)) => Ok((a, s, n))
      case _ => Err(BadNumber)
  }

  function FormatPlotName(accountId: U64, startNonce: U64, nonces: U64): string {
    Decimal(accountId) + "_" + Decimal(startNonce) + "_" + Decimal(nonces)
  }

  lemma NoUnderscoreInNumber(n: nat)
    ensures '_' !in Decimal(n)
  {
    var d := Decimal(n);
    assert forall i :: 0 <= i < |d| ==> IsDigit(d[i]);
  }

  /** Every name the plotter writes parses back to its three numbers. */
  lemma ParseFormattedName(accountId: U64, startNonce: U64, nonces: U64)
    ensures ParsePlotName(FormatPlotName(accountId, startNonce, nonces)) == Ok((accountId, startNonce, nonces))
  {
    var a, s, n := Decimal(accountId), Decimal(startNonce), Decimal(nonces);
    NoUnderscoreInNumber(accountId);
    NoUnderscoreInNumber(startNonce);
    NoUnderscoreInNumber(nonces);
    assert FormatPlotName(accountId, startNonce, nonces) == a + "_" + (s + "_" + n);
    SplitAfterFree(a, '_', s + "_" + n);
    SplitAfterFree(s, '_', n);
    SplitNoSep(n, '_');
    assert Split(FormatPlotName(accountId, startNonce, nonces), "_") == [a, s, n];
    ParseDecimal(accountId);
    ParseDecimal(startNonce);
    ParseDecimal(nonces);
  }

  /** A name with an underscore count other than two is refused. */
  lemma NameNeedsThreeParts(fileName: string)
    ensures |Split(fileName, "_")| != 3 ==> ParsePlotName(fileName) == Err(WrongFormat)
    ensures ParsePlotName(fileName).Ok? ==> Join(Split(fileName, "_"), "_") == fileName
  {
    JoinSplit(fileName, "_");
  }

  /** The expected size as written: `nonces * NONCE_SIZE` in wrapping u64 arithmetic. */
  function ExpectedSizeAsWritten(nonces: U64): nat {
    (nonces * NONCE_SIZE) % U64_MODULUS
  }

  /**
   * The checks of `Plot::new` as written, in their order: a regular file, a
   * well-formed name, readable metadata, the wrapped expected size.
   */
  function CheckPlotFileAsWritten(fileName: string, isFile: bool, size: Option<U64>): Result<Meta, PlotError> {
    if !isFile then Err(NotAFile)
    else match ParsePlotName(fileName)
      case Err(e) => Err(e)
      case Ok((a, s, n)) =>
        if size.None? then Err(MetadataFailed)
        else if size.value != ExpectedSizeAsWritten(n) then Err(WrongSize(ExpectedSizeAsWritten(n), size.value))
        else Ok(Meta(a, s, n, fileName))
  }

  /**
   * A one-nonce file named as 2^46 + 1 nonces passes the size check as
   * written, because 64 * 4096 * (2^46 + 1) wraps to 262144.
   */
  lemma WrappedSizeAccepted()
    ensures var name := FormatPlotName(0, 0, 70368744177665);
      && CheckPlotFileAsWritten(name, true, Some(262144)) == Ok(Meta(0, 0, 70368744177665, name))
      && 70368744177665 * NONCE_SIZE != 262144
  {
    var name := FormatPlotName(0, 0, 70368744177665);
    ParseFormattedName(0, 0, 70368744177665);
    assert ParsePlotName(name) == Ok((0, 0, 70368744177665));
    assert 70368744177665 * NONCE_SIZE == 1 * U64_MODULUS + 262144;
    ModUnique(70368744177665 * NONCE_SIZE, U64_MODULUS, 1, 262144);
  }

  /** The checks of `Plot::new` with the expected size computed without wrapping. */
  function CheckPlotFile(fileName: string, isFile: bool, size: Option<U64>): (r: Result<Meta, PlotError>)
    ensures r.Ok? ==> isFile && size == Some(r.value.nonces * NONCE_SIZE)
    ensures r.Ok? ==> ParsePlotName(fileName) == Ok((r.value.accountId, r.value.startNonce, r.value.nonces))
    ensures r.Ok? ==> r.value.name == fileName
  {
    if !isFile then Err(NotAFile)
    else match ParsePlotName(fileName)
      case Err(e) => Err(e)
      case Ok((a, s, n)) =>
        if size.None? then Err(MetadataFailed)
        else if size.value != n * NONCE_SIZE then Err(WrongSize(n * NONCE_SIZE, size.value))
        else Ok(Meta(a, s, n, fileName))
  }

  /** A formatted name with the matching size is accepted, and only with that size. */
  lemma CheckFormattedPlot(accountId: U64, startNonce: U64, nonces: U64, size: U64)
    ensures var name := FormatPlotName(accountId, startNonce, nonces);
      CheckPlotFile(name, true, Some(size)).Ok? <==> size == nonces * NONCE_SIZE
  {
    ParseFormattedName(accountId, startNonce, nonces);
  }

  /** Direct I/O is kept only if requested and one sector holds no more scoops than the plot has nonces. */
  function DirectIoKept(requested: bool, sectorSize: nat, nonces: nat): (r: bool)
    ensures r ==> requested && sectorSize < SCOOP_SIZE * (nonces + 1)
    ensures requested && sectorSize < SCOOP_SIZE * (nonces + 1) ==> r
  {
    requested && !(sectorSize / 64 > nonces)
  }

  // ---------------------------------------------------------------------
  // Alignment arithmetic

  /** Rounding down to a multiple of `d` moves by less than `d`. */
  lemma AlignDown(x: nat, d: nat)
    requires d > 0
    ensures 0 <= x % d < d && x % d <= x
    ensures (x - x % d) % d == 0
  {
    var q := x / d;
    assert x - x % d == q * d;
    ModUnique(x - x % d, d, q, 0);
  }

  // ---------------------------------------------------------------------
  // The read cursor

  /** Where scoop `scoop` of a plot with `nonces` nonces begins in the file. */
  function ScoopStart(scoop: nat, nonces: nat): nat {
    scoop * nonces * SCOOP_SIZE
  }

  /**
   * The size of the next read and whether it ends the scoop: a full buffer
   * while the rest does not fit, else the rest, cut down to whole sectors
   * under direct I/O.
   */
  function ReadStep(readOffset: nat, capacity: nat, nonces: nat, directIo: bool, sectorSize: nat): (r: (nat, bool))
    requires readOffset <= SCOOP_SIZE * nonces
    requires directIo ==> sectorSize > 0
    ensures r.0 <= capacity
    ensures r.1 <==> readOffset + capacity >= SCOOP_SIZE * nonces
    ensures readOffset + r.0 <= SCOOP_SIZE * nonces
    ensures r.1 && !directIo ==> readOffset + r.0 == SCOOP_SIZE * nonces
    ensures r.1 && directIo ==> r.0 % sectorSize == 0 && SCOOP_SIZE * nonces - (readOffset + r.0) < sectorSize
    ensures !r.1 ==> r.0 == capacity
  {
    if readOffset + capacity >= SCOOP_SIZE * nonces then
      var rest := SCOOP_SIZE * nonces - readOffset;
      if directIo then
        AlignDown(rest, sectorSize);
        if rest % sectorSize != 0 then (rest - rest % sectorSize, true) else (rest, true)
      else (rest, true)
    else (capacity, false)
  }

  /**
   * Under direct I/O `Prepare` aligns its seek down to a sector, but `Read`
   * seeks to `seekBase + alignOffset + readOffset`, which is the scoop start
   * itself: with 100 nonces, scoop 1 and 4096-byte sectors direct I/O stays
   * on, the base is 4096 and the alignment offset 2304, and the first chunk
   * is read from 6400, not a sector boundary.
   */
  lemma DirectReadUnaligned()
    ensures DirectIoKept(true, 4096, 100)
    ensures var start := ScoopStart(1, 100);
      && start - start % 4096 == 4096 && start % 4096 == 2304
      && (start - start % 4096) + start % 4096 + 0 == 6400 && 6400 % 4096 != 0
  {
  }

  /** The first nonce of the chunk at byte `readOffset` of `scoop`. */
  function ChunkStart(meta: Meta, scoop: nat, readOffset: nat): nat {
    meta.startNonce + scoop * meta.nonces + readOffset / 64
  }

  /** The chunk computation of `Plot::read`, step by step. */
  method NextChunk(readOffset: nat, capacity: nat, nonces: nat, directIo: bool, sectorSize: nat)
    returns (bytesToRead: nat, finished: bool)
    requires readOffset <= SCOOP_SIZE * nonces
    requires directIo ==> sectorSize > 0
    ensures (bytesToRead, finished) == ReadStep(readOffset, capacity, nonces, directIo, sectorSize)
  {
    if readOffset + capacity >= SCOOP_SIZE * nonces {
      bytesToRead := SCOOP_SIZE * nonces - readOffset;
      if directIo {
        var rem := bytesToRead % sectorSize;
        if rem != 0 {
          bytesToRead := bytesToRead - rem;
        }
      }
      finished := true;
    } else {
      bytesToRead, finished := capacity, false;
    }
  }

  /** Bytes read in a whole pass from `readOffset` on, reading until a step reports the end. */
  function PassBytes(readOffset: nat, capacity: nat, nonces: nat): (total: nat)
    requires capacity > 0 && readOffset <= SCOOP_SIZE * nonces
    decreases SCOOP_SIZE * nonces - readOffset
  {
    var (bytes, finished) := ReadStep(readOffset, capacity, nonces, false, 0);
    if finished then bytes else bytes + PassBytes(readOffset + bytes, capacity, nonces)
  }

  /** Buffers used by a whole pass from `readOffset` on: one per read, up to the read that ends it. */
  function PassSteps(readOffset: nat, capacity: nat, nonces: nat): (steps: nat)
    requires capacity > 0 && readOffset <= SCOOP_SIZE * nonces
    ensures steps >= 1
    decreases SCOOP_SIZE * nonces - readOffset
  {
    var (bytes, finished) := ReadStep(readOffset, capacity, nonces, false, 0);
    if finished then 1 else 1 + PassSteps(readOffset + bytes, capacity, nonces)
  }

  /** Without direct I/O a pass reads exactly the rest of the scoop, so every nonce once. */
  lemma {:induction false} PassReadsWholeScoop(readOffset: nat, capacity: nat, nonces: nat)
    requires capacity > 0 && readOffset <= SCOOP_SIZE * nonces
    ensures readOffset + PassBytes(readOffset, capacity, nonces) == SCOOP_SIZE * nonces
    decreases SCOOP_SIZE * nonces - readOffset
  {
    var (bytes, finished) := ReadStep(readOffset, capacity, nonces, false, 0);
    if !finished {
      PassReadsWholeScoop(readOffset + bytes, capacity, nonces);
    }
  }

  class Plot {
    const meta: Meta
    const useDirectIo: bool
    const sectorSize: U64
    const dummy: bool
    var readOffset: nat
    var alignOffset: nat
    var seekBase: nat

    /** The cursor stays inside the scoop, and the plot size fits in a u64. */
    ghost predicate Valid()
      reads this
    {
      readOffset <= SCOOP_SIZE * meta.nonces && meta.nonces * NONCE_SIZE <= U64_MAX
    }

    /**
     * A plot whose file passed the checks; direct I/O is dropped when a
     * sector is larger than the plot's scoop.
     */
    constructor (meta: Meta, requestDirectIo: bool, sectorSize: U64, dummy: bool)
      requires meta.nonces * NONCE_SIZE <= U64_MAX
      ensures Valid()
      ensures this.meta == meta && this.sectorSize == sectorSize && this.dummy == dummy
      ensures useDirectIo == DirectIoKept(requestDirectIo, sectorSize, meta.nonces)
      ensures readOffset == 0 && alignOffset == 0 && seekBase == 0
    {
      this.meta := meta;
      this.sectorSize := sectorSize;
      this.dummy := dummy;
      var direct := requestDirectIo;
      if direct && sectorSize / 64 > meta.nonces {
        direct := false;
      }
      this.useDirectIo := direct;
      readOffset, alignOffset, seekBase := 0, 0, 0;
    }

    /** Aligns an address down to the sector size and returns how far it moved. */
    method RoundSeekAddr(seekAddr: nat) returns (newAddr: nat, r: nat)
      requires sectorSize > 0
      ensures newAddr % sectorSize == 0
      ensures seekAddr == newAddr + r && r < sectorSize
    {
      AlignDown(seekAddr, sectorSize);
      newAddr := seekAddr;
      r := seekAddr % sectorSize;
      if r != 0 {
        newAddr := newAddr - r;
      }
    }

    /**
     * Positions the cursor at the start of `scoop`. On a failed reopen the
     * offsets are reset and nothing else changes; otherwise seekBase is the
     * (aligned) file position and seekBase + alignOffset the scoop start.
     */
    method Prepare(scoop: nat, reopenFails: bool, seekFails: bool) returns (r: Result<nat, PlotError>)
      requires Valid() && scoop < SCOOPS_IN_NONCE
      requires useDirectIo ==> sectorSize > 0
      modifies this`readOffset, this`alignOffset, this`seekBase
      ensures Valid() && readOffset == 0
      ensures reopenFails ==> r == Err(OpenFailed) && alignOffset == 0 && seekBase == old(seekBase)
      ensures !reopenFails ==>
        && seekBase + alignOffset == ScoopStart(scoop, meta.nonces)
        && (useDirectIo ==> seekBase % sectorSize == 0 && alignOffset < sectorSize)
        && (!useDirectIo ==> alignOffset == 0)
        && r == (if seekFails then Err(SeekFailed) else Ok(seekBase))
    {
      readOffset := 0;
      alignOffset := 0;
      var seekAddr := scoop * meta.nonces * SCOOP_SIZE;
      if reopenFails {
        return Err(OpenFailed);
      }
      if useDirectIo {
        var aligned, delta := RoundSeekAddr(seekAddr);
        seekAddr, alignOffset := aligned, delta;
      }
      seekBase := seekAddr;
      r := if seekFails then Err(SeekFailed) else Ok(seekAddr);
    }

    /**
     * Reads the next chunk of `scoop` into a buffer of `capacity` bytes:
     * (bytes read, first nonce of the chunk, whether the scoop is done).
     * `addr` is the file position the chunk is read from. A failed seek or
     * read (never attempted for a dummy plot) leaves the cursor where it was.
     */
    method Read(capacity: nat, scoop: nat, ioFails: bool) returns (r: Result<(nat, nat, bool), PlotError>, addr: nat)
      requires Valid()
      requires useDirectIo ==> sectorSize > 0
      modifies this`readOffset
      ensures Valid()
      ensures addr == seekBase + alignOffset + old(readOffset)
      ensures ioFails && !dummy ==> r == Err(IoFailed) && readOffset == old(readOffset)
      ensures !(ioFails && !dummy) ==>
        var step := ReadStep(old(readOffset), capacity, meta.nonces, useDirectIo, sectorSize);
        && r == Ok((step.0, ChunkStart(meta, scoop, old(readOffset)), step.1))
        && readOffset == old(readOffset) + step.0
    {
      var offset := readOffset;
      var startNonce := ChunkStart(meta, scoop, offset);
      var bytesToRead, finished := NextChunk(offset, capacity, meta.nonces, useDirectIo, sectorSize);
      addr := seekBase + alignOffset + offset;
      if !dummy && ioFails {
        return Err(IoFailed), addr;
      }
      readOffset := offset + bytesToRead;
      r := Ok((bytesToRead, startNonce, finished));
    }
  }
}
