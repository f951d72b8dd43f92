/**
 * The miner's counters (src/metrics.rs): `MinerMetrics` counts
 * submissions, rounds, I/O errors per drive, network and config errors and
 * bytes read, keeps the best deadline per account and derives an overall
 * health status; `DiskHealthInfo` counts reads per drive and derives that
 * drive's health; `DiskHealthMonitor` keeps one `DiskHealthInfo` per drive.
 *
 * Counters are Rust `u64`/`u32`. A `MinerMetrics` increment requires that
 * it does not overflow; a `DiskHealthInfo` increment reports the overflow,
 * where a debug build panics. Clock readings and floating-point averages are not modelled;
 * percentages are exact reals (module Rates).
 */
module Metrics {
  import opened Wrappers
  import opened Strings
  import opened Rates

  datatype HealthStatus = Healthy | Warning | Critical

  // ---------------------------------------------------------------------
  // Uptime

  /** Hours, minutes and seconds of an uptime given in seconds. */
  function UptimeParts(secs: nat): (r: (nat, nat, nat))
    ensures r.0 * 3600 + r.1 * 60 + r.2 == secs
    ensures r.1 < 60 && r.2 < 60
  {
    (secs / 3600, (secs % 3600) / 60, secs % 60)
  }

  /** `format!("{}h {}m {}s", hours, minutes, seconds)`. */
  function UptimeFormatted(secs: nat): string {
    var (h, m, s) := UptimeParts(secs);
    Decimal(h) + "h " + Decimal(m) + "m " + Decimal(s) + "s"
  }

  /** A number followed by its unit letter: no space, and the number reads back. */
  lemma UnitField(n: nat, unit: char)
    requires unit != ' '
    ensures var f := Decimal(n) + [unit];
      && ' ' !in f && |f| >= 2 && f[|f| - 1] == unit && f[..|f| - 1] == Decimal(n)
      && AllDigits(f[..|f| - 1]) && DigitsValue(f[..|f| - 1]) == n
  {
    var d := Decimal(n);
    assert forall i :: 0 <= i < |d| ==> IsDigit(d[i]);
    assert (d + [unit])[..|d|] == d;
    DecimalValue(n);
  }

  /** Three space-free fields joined by single spaces split back into those fields. */
  lemma SplitThree(a: string, b: string, c: string)
    requires ' ' !in a && ' ' !in b && ' ' !in c
    ensures Split(a + " " + b + " " + c, " ") == [a, b, c]
  {
    assert " " == [' '];
    assert a + " " + b + " " + c == a + [' '] + (b + [' '] + c);
    SplitAfterFree(a, ' ', b + [' '] + c);
    SplitAfterFree(b, ' ', c);
    SplitNoSep(c, ' ');
  }

  /**
   * The uptime text is three space-separated fields "<h>h", "<m>m", "<s>s"
   * whose numbers give back the seconds, with minutes and seconds below 60.
   */
  lemma UptimeReadsBack(secs: nat)
    ensures var p := Split(UptimeFormatted(secs), " ");
      && |p| == 3
      && |p[0]| >= 2 && p[0][|p[0]| - 1] == 'h'
      && |p[1]| >= 2 && p[1][|p[1]| - 1] == 'm'
      && |p[2]| >= 2 && p[2][|p[2]| - 1] == 's'
      && AllDigits(p[0][..|p[0]| - 1]) && AllDigits(p[1][..|p[1]| - 1]) && AllDigits(p[2][..|p[2]| - 1])
      && DigitsValue(p[0][..|p[0]| - 1]) * 3600 + DigitsValue(p[1][..|p[1]| - 1]) * 60
         + DigitsValue(p[2][..|p[2]| - 1]) == secs
      && DigitsValue(p[1][..|p[1]| - 1]) < 60 && DigitsValue(p[2][..|p[2]| - 1]) < 60
  {
    var (h, m, s) := UptimeParts(secs);
    var a, b, c := Decimal(h) + "h", Decimal(m) + "m", Decimal(s) + "s";
    UnitField(h, 'h');
    UnitField(m, 'm');
    UnitField(s, 's');
    assert UptimeFormatted(secs) == a + " " + b + " " + c;
    SplitThree(a, b, c);
  }

  // ---------------------------------------------------------------------
  // Best deadline per account

  /**
   * The best deadline after a successful submission: the smaller of the
   * recorded one (u64::MAX when the account has none yet) and the new one.
   */
  function Improve(current: Option<U64>, deadline: U64): (r: U64)
    ensures r <= deadline
    ensures current.Some? ==> r <= current.value
    ensures r == deadline || (current.Some? && r == current.value) || r == U64_MAX
  {
    var best := if current.Some? then current.value else U64_MAX;
    if deadline < best then deadline else best
  }

  function Lookup<K>(m: map<K, U64>, k: K): Option<U64> {
    if k in m then Some(m[k]) else None
  }

  /** The smallest of the deadlines, u64::MAX for none. */
  function MinDeadline(ds: seq<U64>): U64 {
    if ds == [] then U64_MAX
    else
      var rest := MinDeadline(ds[..|ds| - 1]);
      if ds[|ds| - 1] < rest then ds[|ds| - 1] else rest
  }

  /** Recording deadlines one after the other keeps their minimum. */
  function RecordAll(best: map<nat, U64>, account: nat, ds: seq<U64>): map<nat, U64> {
    if ds == [] then best
    else
      var before := RecordAll(best, account, ds[..|ds| - 1]);
      before[account := Improve(Lookup(before, account), ds[|ds| - 1])]
  }

  lemma {:induction false} RecordAllKeepsMinimum(account: nat, ds: seq<U64>)
    requires ds != []
    ensures var r := RecordAll(map[], account, ds);
      && r.Keys == {account}
      && r[account] == MinDeadline(ds)
      && forall i :: 0 <= i < |ds| ==> r[account] <= ds[i]
  {
    var init := ds[..|ds| - 1];
    if init != [] {
      RecordAllKeepsMinimum(account, init);
      assert forall i :: 0 <= i < |init| ==> init[i] == ds[i];
    }
  }

  // ---------------------------------------------------------------------
  // Sum of the per-drive error counts

  ghost function SumValues(m: map<string, nat>): nat {
    if m == map[] then 0
    else
      var k :| k in m;
      m[k] + SumValues(m - {k})
  }

  /** The sum does not depend on which key is taken out first. */
  lemma {:induction false} SumValuesRemove(m: map<string, nat>, k: string)
    requires k in m
    ensures SumValues(m) == m[k] + SumValues(m - {k})
    decreases |m|
  {
    var j :| j in m && SumValues(m) == m[j] + SumValues(m - {j});
    if j != k {
      assert |m - {j}| < |m| by { assert m.Keys - {j} < m.Keys; }
      SumValuesRemove(m - {j}, k);
      SumValuesRemove(m - {k}, j);
      assert m - {j} - {k} == m - {k} - {j};
      assert |m - {k}| < |m| by { assert m.Keys - {k} < m.Keys; }
    }
  }

  /** Bumping one entry (or adding it at 1) raises the sum by exactly one. */
  lemma SumValuesBump(m: map<string, nat>, k: string)
    ensures var v := if k in m then m[k] + 1 else 1;
      SumValues(m[k := v]) == SumValues(m) + 1
  {
    var v := if k in m then m[k] + 1 else 1;
    SumValuesRemove(m[k := v], k);
    assert m[k := v] - {k} == m - {k};
    if k in m {
      SumValuesRemove(m, k);
    } else {
      assert m - {k} == m;
    }
  }

  // ---------------------------------------------------------------------
  // Overall health

  /** The modelled counters of a `MinerMetrics`. */
  datatype Counters = Counters(
    totalSubmissions: U64,
    successfulSubmissions: U64,
    failedSubmissions: U64,
    roundsCompleted: U64,
    roundsFailed: U64,
    totalIoErrors: U64,
    configErrors: U64,
    networkErrors: U64,
    totalBytesRead: U64)

  const ZERO: Counters := Counters(0, 0, 0, 0, 0, 0, 0, 0, 0)

  /**
   * Whether the I/O error rate, errors per whole MiB read as a percentage,
   * exceeds `pct`. Nothing read gives rate 0; fewer than one whole MiB
   * divides by zero in floating point, which exceeds every threshold when
   * there are errors (infinity) and none when there are not (NaN).
   */
  function IoRateAbove(errors: nat, bytes: nat, pct: nat): (r: bool)
    ensures bytes / 1048576 > 0 ==> (r <==> Percent(errors, bytes / 1048576) > pct as real)
    ensures bytes == 0 ==> !r
    ensures 0 < bytes < 1048576 ==> (r <==> errors > 0)
  {
    var mib := bytes / 1024 / 1024;
    if bytes == 0 then false
    else if mib == 0 then errors > 0
    else
      PercentCompare(errors, mib, pct);
      errors * 100 > pct * mib
  }

  /**
   * Whether `100 - round_success_rate()` exceeds `pct`, as written: with no
   * rounds the success rate is 0, so the failure rate is 100.
   */
  function RoundFailureAboveAsWritten(completed: nat, failed: nat, pct: nat): (r: bool)
    ensures completed + failed == 0 ==> (r <==> pct < 100)
    ensures completed + failed > 0 ==> (r <==> Percent(failed, completed + failed) > pct as real)
  {
    var total := completed + failed;
    if total == 0 then 100 > pct
    else
      PercentCompare(failed, total, pct);
      failed * 100 > pct * total
  }

  /** The failure rate as evidently intended: no rounds, no failures. */
  function RoundFailureAbove(completed: nat, failed: nat, pct: nat): (r: bool)
    ensures completed + failed == 0 ==> !r
    ensures completed + failed > 0 ==> (r <==> Percent(failed, completed + failed) > pct as real)
  {
    var total := completed + failed;
    if total == 0 then false
    else
      PercentCompare(failed, total, pct);
      failed * 100 > pct * total
  }

  /** `MinerMetrics::health_status` as written. */
  function HealthAsWritten(c: Counters): (r: HealthStatus)
    ensures c.networkErrors > 100 ==> r == Critical
    ensures c.networkErrors > 50 ==> r != Healthy
    ensures r == Healthy <==>
      && !IoRateAbove(c.totalIoErrors, c.totalBytesRead, 1)
      && !RoundFailureAboveAsWritten(c.roundsCompleted, c.roundsFailed, 10)
      && c.networkErrors <= 50
  {
    if IoRateAbove(c.totalIoErrors, c.totalBytesRead, 5)
      || RoundFailureAboveAsWritten(c.roundsCompleted, c.roundsFailed, 20)
      || c.networkErrors > 100
    then Critical
    else if IoRateAbove(c.totalIoErrors, c.totalBytesRead, 1)
      || RoundFailureAboveAsWritten(c.roundsCompleted, c.roundsFailed, 10)
      || c.networkErrors > 50
    then Warning
    else Healthy
  }

  /** A miner that has not completed or failed a round yet reports Critical. */
  lemma FreshMinerCriticalAsWritten(c: Counters)
    requires c.roundsCompleted == 0 && c.roundsFailed == 0
    ensures HealthAsWritten(c) == Critical
  {
  }

  /** `MinerMetrics::health_status` with the zero-round failure rate taken as 0. */
  function Health(c: Counters): (r: HealthStatus)
    ensures c.networkErrors > 100 ==> r == Critical
    ensures c.networkErrors > 50 ==> r != Healthy
    ensures r == Healthy <==>
      && !IoRateAbove(c.totalIoErrors, c.totalBytesRead, 1)
      && !RoundFailureAbove(c.roundsCompleted, c.roundsFailed, 10)
      && c.networkErrors <= 50
  {
    if IoRateAbove(c.totalIoErrors, c.totalBytesRead, 5)
      || RoundFailureAbove(c.roundsCompleted, c.roundsFailed, 20)
      || c.networkErrors > 100
    then Critical
    else if IoRateAbove(c.totalIoErrors, c.totalBytesRead, 1)
      || RoundFailureAbove(c.roundsCompleted, c.roundsFailed, 10)
      || c.networkErrors > 50
    then Warning
    else Healthy
  }

  /**
   * A fresh miner is Healthy; with at least one round the intended and the
   * written status agree.
   */
  lemma HealthIntended(c: Counters)
    ensures c == ZERO ==> Health(c) == Healthy
    ensures c.roundsCompleted + c.roundsFailed > 0 ==> Health(c) == HealthAsWritten(c)
  {
  }

  // ---------------------------------------------------------------------
  // Per-drive read health

  /** `DiskHealthInfo::is_healthy`: error rate below 1% and fewer than 5 errors in a row. */
  function DiskIsHealthy(total: nat, failed: nat, consecutive: nat): (r: bool)
    ensures total > 0 ==> (r <==> Percent(failed, total) < 1.0 && consecutive < 5)
    ensures total == 0 ==> (r <==> consecutive < 5)
  {
    if total == 0 then consecutive < 5
    else
      PercentCompare(failed, total, 1);
      failed * 100 < total && consecutive < 5
  }

  /** `DiskHealthInfo::health_status`. */
  function DiskStatus(total: nat, failed: nat, consecutive: nat): (r: HealthStatus)
    ensures consecutive >= 10 ==> r == Critical
    ensures consecutive >= 5 ==> r != Healthy
  {
    if consecutive >= 10 || (total > 0 && failed * 100 > 5 * total) then Critical
    else if consecutive >= 5 || (total > 0 && failed * 100 > total) then Warning
    else Healthy
  }

  /** The bands of `DiskStatus` in terms of the error rate in percent. */
  lemma DiskStatusRates(total: nat, failed: nat, consecutive: nat)
    requires total > 0
    ensures var r := DiskStatus(total, failed, consecutive);
      && (r == Critical <==> consecutive >= 10 || Percent(failed, total) > 5.0)
      && (r == Warning <==> consecutive < 10 && Percent(failed, total) <= 5.0
                            && (consecutive >= 5 || Percent(failed, total) > 1.0))
      && (r == Healthy <==> consecutive < 5 && Percent(failed, total) <= 1.0)
  {
    PercentCompare(failed, total, 5);
    PercentCompare(failed, total, 1);
  }

  /**
   * A healthy drive has status Healthy; the converse fails at exactly 1%,
   * where `is_healthy` (rate < 1) and `health_status` (rate > 1) disagree.
   */
  lemma HealthyDriveStatus(total: nat, failed: nat, consecutive: nat)
    ensures DiskIsHealthy(total, failed, consecutive) ==> DiskStatus(total, failed, consecutive) == Healthy
    ensures DiskStatus(100, 1, 0) == Healthy && !DiskIsHealthy(100, 1, 0)
  {
  }

  // ---------------------------------------------------------------------
  // The miner's counters

  class MinerMetrics {
    var totalSubmissions: U64
    var successfulSubmissions: U64
    var failedSubmissions: U64
    var bestDeadlines: map<nat, U64>
    var roundsCompleted: U64
    var roundsFailed: U64
    var ioErrorsByDrive: map<string, nat>
    var totalIoErrors: U64
    var configErrors: U64
    var networkErrors: U64
    var totalBytesRead: U64

    /** Every submission succeeded or failed; the total counts every per-drive error. */
    ghost predicate Valid()
      reads this
    {
      && totalSubmissions == successfulSubmissions + failedSubmissions
      && totalIoErrors == SumValues(ioErrorsByDrive)
    }

    function Snapshot(): Counters
      reads this
    {
      Counters(totalSubmissions, successfulSubmissions, failedSubmissions, roundsCompleted, roundsFailed,
        totalIoErrors, configErrors, networkErrors, totalBytesRead)
    }

    constructor ()
      ensures Valid()
      ensures Snapshot() == ZERO && bestDeadlines == map[] && ioErrorsByDrive == map[]
    {
      totalSubmissions, successfulSubmissions, failedSubmissions := 0, 0, 0;
      bestDeadlines := map[];
      roundsCompleted, roundsFailed := 0, 0;
      ioErrorsByDrive := map[];
      totalIoErrors, configErrors, networkErrors, totalBytesRead := 0, 0, 0, 0;
    }

    method RecordSubmissionSuccess(accountId: nat, deadline: U64)
      requires Valid() && totalSubmissions < U64_MAX
      modifies this`totalSubmissions, this`successfulSubmissions, this`bestDeadlines
      ensures Valid()
      ensures totalSubmissions == old(totalSubmissions) + 1
      ensures successfulSubmissions == old(successfulSubmissions) + 1
      ensures bestDeadlines == old(bestDeadlines)[accountId := Improve(Lookup(old(bestDeadlines), accountId), deadline)]
    {
      totalSubmissions := totalSubmissions + 1;
      successfulSubmissions := successfulSubmissions + 1;
      var currentBest := if accountId in bestDeadlines then bestDeadlines[accountId] else U64_MAX;
      bestDeadlines := bestDeadlines[accountId := currentBest];
      if deadline < currentBest {
        bestDeadlines := bestDeadlines[accountId := deadline];
      }
    }

    method RecordSubmissionFailure()
      requires Valid() && totalSubmissions < U64_MAX
      modifies this`totalSubmissions, this`failedSubmissions
      ensures Valid()
      ensures totalSubmissions == old(totalSubmissions) + 1
      ensures failedSubmissions == old(failedSubmissions) + 1
    {
      totalSubmissions := totalSubmissions + 1;
      failedSubmissions := failedSubmissions + 1;
    }

    method RecordRoundComplete()
      requires roundsCompleted < U64_MAX
      modifies this`roundsCompleted
      ensures roundsCompleted == old(roundsCompleted) + 1
    {
      roundsCompleted := roundsCompleted + 1;
    }

    method RecordRoundFailure()
      requires roundsFailed < U64_MAX
      modifies this`roundsFailed
      ensures roundsFailed == old(roundsFailed) + 1
    {
      roundsFailed := roundsFailed + 1;
    }

    method RecordIoError(driveId: string)
      requires Valid() && totalIoErrors < U64_MAX
      modifies this`totalIoErrors, this`ioErrorsByDrive
      ensures Valid()
      ensures totalIoErrors == old(totalIoErrors) + 1
      ensures ioErrorsByDrive == old(ioErrorsByDrive)[driveId :=
        if driveId in old(ioErrorsByDrive) then old(ioErrorsByDrive)[driveId] + 1 else 1]
    {
      SumValuesBump(ioErrorsByDrive, driveId);
      totalIoErrors := totalIoErrors + 1;
      var count := if driveId in ioErrorsByDrive then ioErrorsByDrive[driveId] else 0;
      ioErrorsByDrive := ioErrorsByDrive[driveId := count + 1];
    }

    method RecordNetworkError()
      requires networkErrors < U64_MAX
      modifies this`networkErrors
      ensures networkErrors == old(networkErrors) + 1
    {
      networkErrors := networkErrors + 1;
    }

    method RecordConfigError()
      requires configErrors < U64_MAX
      modifies this`configErrors
      ensures configErrors == old(configErrors) + 1
    {
      configErrors := configErrors + 1;
    }

    method RecordBytesRead(bytes: U64)
      requires totalBytesRead + bytes <= U64_MAX
      modifies this`totalBytesRead
      ensures totalBytesRead == old(totalBytesRead) + bytes
    {
      totalBytesRead := totalBytesRead + bytes;
    }

    /** The overall status, with the zero-round failure rate taken as 0. */
    /**
     * `health_status` with the zero-round failure rate taken as 0 (the
     * intended status, see `Health`): Healthy for a fresh miner, and the
     * status as written once a round has completed or failed.
     */
    function HealthStatus(): (r: HealthStatus)
      reads this
      ensures Snapshot() == ZERO ==> r == Healthy
      ensures roundsCompleted + roundsFailed > 0 ==> r == HealthAsWritten(Snapshot())
    {
      HealthIntended(Snapshot());
      Health(Snapshot())
    }
  }

  // ---------------------------------------------------------------------
  // Per-drive read counters

  class DiskHealthInfo {
    const driveId: string
    var totalReads: U64
    var failedReads: U64
    var consecutiveErrors: U32

    /** Errors in a row are failures, and failures are reads. */
    ghost predicate Valid()
      reads this
    {
      consecutiveErrors <= failedReads <= totalReads
    }

    constructor (driveId: string)
      ensures Valid()
      ensures this.driveId == driveId && totalReads == 0 && failedReads == 0 && consecutiveErrors == 0
    {
      this.driveId := driveId;
      totalReads, failedReads, consecutiveErrors := 0, 0, 0;
    }

    /**
     * `record_success`. Incrementing `total_reads` past `u64::MAX` panics in
     * a debug build; that case is reported by `overflow` and changes nothing.
     */
    method RecordSuccess() returns (overflow: bool)
      requires Valid()
      modifies this
      ensures Valid()
      ensures overflow <==> old(totalReads) == U64_MAX
      ensures overflow ==> totalReads == old(totalReads) && consecutiveErrors == old(consecutiveErrors)
      ensures !overflow ==> totalReads == old(totalReads) + 1 && consecutiveErrors == 0
      ensures failedReads == old(failedReads)
    {
      if totalReads == U64_MAX {
        return true;
      }
      totalReads := totalReads + 1;
      consecutiveErrors := 0;
      overflow := false;
    }

    /**
     * `record_failure`. A debug build panics at the first increment that
     * overflows: `total_reads` at `u64::MAX` stops it before anything
     * changes, `consecutive_errors` at `u32::MAX` after both read counters
     * have been incremented. `overflow` reports either panic.
     */
    method RecordFailure() returns (overflow: bool)
      requires Valid()
      modifies this
      ensures Valid()
      ensures overflow <==> old(totalReads) == U64_MAX || old(consecutiveErrors) == U32_MAX
      ensures old(totalReads) == U64_MAX ==>
        totalReads == old(totalReads) && failedReads == old(failedReads)
      ensures old(totalReads) < U64_MAX ==>
        totalReads == old(totalReads) + 1 && failedReads == old(failedReads) + 1
      ensures consecutiveErrors == if overflow then old(consecutiveErrors) else old(consecutiveErrors) + 1
    {
      if totalReads == U64_MAX {
        return true;
      }
      totalReads := totalReads + 1;
      failedReads := failedReads + 1;
      if consecutiveErrors == U32_MAX {
        return true;
      }
      consecutiveErrors := consecutiveErrors + 1;
      overflow := false;
    }

    /** The error rate in percent; 0 before any read. */
    function ErrorRate(): real
      reads this
    {
      if totalReads == 0 then 0.0 else Percent(failedReads, totalReads)
    }

    /** `is_healthy`: error rate below 1% and fewer than 5 errors in a row. */
    function IsHealthy(): (r: bool)
      reads this
      ensures r <==> ErrorRate() < 1.0 && consecutiveErrors < 5
      ensures r ==> HealthStatus() == Healthy
    {
      HealthyDriveStatus(totalReads, failedReads, consecutiveErrors);
      DiskIsHealthy(totalReads, failedReads, consecutiveErrors)
    }

    /** `health_status`: Critical above 5% or from 10 errors in a row, Warning above 1% or from 5. */
    function HealthStatus(): (r: HealthStatus)
      reads this
      ensures r == Critical <==> consecutiveErrors >= 10 || ErrorRate() > 5.0
      ensures r == Healthy <==> consecutiveErrors < 5 && ErrorRate() <= 1.0
    {
      if totalReads == 0 then DiskStatus(totalReads, failedReads, consecutiveErrors)
      else
        DiskStatusRates(totalReads, failedReads, consecutiveErrors);
        DiskStatus(totalReads, failedReads, consecutiveErrors)
    }
  }

  /** One `DiskHealthInfo` per drive id. */
  class DiskHealthMonitor {
    var drives: map<string, DiskHealthInfo>

    /** Each entry is stored under its own drive id and is valid. */
    ghost predicate Valid()
      reads this, drives.Values
    {
      forall id :: id in drives ==> drives[id].driveId == id && drives[id].Valid()
    }

    constructor ()
      ensures Valid() && drives == map[]
    {
      drives := map[];
    }

    /** The entry for `driveId`, created with zero counts when missing. */
    method GetOrCreate(driveId: string) returns (info: DiskHealthInfo)
      requires Valid()
      modifies this
      ensures Valid()
      ensures driveId in drives && info == drives[driveId] && info.driveId == driveId
      ensures driveId in old(drives) ==> drives == old(drives)
      ensures driveId !in old(drives) ==>
        && fresh(info) && drives == old(drives)[driveId := info]
        && info.totalReads == 0 && info.failedReads == 0 && info.consecutiveErrors == 0
        && info.IsHealthy()
    {
      if driveId in drives {
        info := drives[driveId];
      } else {
        info := new DiskHealthInfo(driveId);
        drives := drives[driveId := info];
      }
    }

    /** Some drive is not healthy. */
    predicate HasUnhealthyDrives(): (r: bool)
      reads this, drives.Values
      ensures r <==> exists id :: id in drives && (drives[id].ErrorRate() >= 1.0 || drives[id].consecutiveErrors >= 5)
      ensures !r ==> forall id :: id in drives ==> drives[id].HealthStatus() == Healthy
    {
      exists id :: id in drives && !drives[id].IsHealthy()
    }
  }
}
