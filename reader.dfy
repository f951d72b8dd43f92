/**
 * The per-drive reader (src/reader.rs): the check for plots of one account
 * whose nonce ranges overlap, the replacement of the reader's plot set, and
 * the sequential skeleton of one drive's read task, which walks the
 * drive's plots scoop by scoop and hands each filled buffer on.
 *
 * Channels, the thread pool, locks and the progress bar are abstracted:
 * every buffer the task receives, and what happens to it (read error,
 * interrupt, failed send, time taken), is a parameter; what the task sends
 * and logs is returned as a trace of events.
 */
module Reading {
  import opened Wrappers
  import opened Strings
  import opened Plots
  import Ui

  // ---------------------------------------------------------------------
  // Overlapping plots

  /** Two plots of one account whose nonce ranges intersect. */
  predicate Conflict(a: Meta, b: Meta) {
    a.accountId == b.accountId && OverlapsWith(b, a)
  }

  /** How many plots after `a` conflict with it. */
  function ConflictsAfter(a: Meta, rest: seq<Meta>): nat {
    if rest == [] then 0
    else (if Conflict(a, rest[0]) then 1 else 0) + ConflictsAfter(a, rest[1..])
  }

  /** How many plots conflict with some later plot. */
  function PlotsWithConflict(metas: seq<Meta>): nat {
    if metas == [] then 0
    else (if ConflictsAfter(metas[0], metas[1..]) > 0 then 1 else 0) + PlotsWithConflict(metas[1..])
  }

  /** `check_overlap` over the collected plot metadata. */
  predicate CheckOverlap(metas: seq<Meta>) {
    PlotsWithConflict(metas) > 0
  }

  lemma {:induction false} ConflictsAfterPositive(a: Meta, rest: seq<Meta>)
    ensures ConflictsAfter(a, rest) > 0 <==> exists j :: 0 <= j < |rest| && Conflict(a, rest[j])
  {
    if rest != [] {
      ConflictsAfterPositive(a, rest[1..]);
      assert forall j :: 1 <= j < |rest| ==> rest[j] == rest[1..][j - 1];
    }
  }

  /** Some earlier plot conflicts with a later one. */
  predicate HasConflictPair(metas: seq<Meta>) {
    exists i, j :: 0 <= i < j < |metas| && Conflict(metas[i], metas[j])
  }

  /** A conflicting pair either starts at the first plot or lies wholly in the rest. */
  lemma ConflictPairCases(metas: seq<Meta>)
    requires metas != []
    ensures HasConflictPair(metas) <==>
      (exists j :: 0 <= j < |metas[1..]| && Conflict(metas[0], metas[1..][j])) || HasConflictPair(metas[1..])
  {
    var tail := metas[1..];
    if HasConflictPair(metas) {
      var i, j :| 0 <= i < j < |metas| && Conflict(metas[i], metas[j]);
      if i > 0 {
        assert Conflict(tail[i - 1], tail[j - 1]);
      } else {
        assert Conflict(metas[0], tail[j - 1]);
      }
    }
    if exists j :: 0 <= j < |tail| && Conflict(metas[0], tail[j]) {
      var j :| 0 <= j < |tail| && Conflict(metas[0], tail[j]);
      assert Conflict(metas[0], metas[j + 1]);
    }
    if HasConflictPair(tail) {
      var i, j :| 0 <= i < j < |tail| && Conflict(tail[i], tail[j]);
      assert Conflict(metas[i + 1], metas[j + 1]);
    }
  }

  /** The check reports an overlap exactly when some earlier plot conflicts with a later one. */
  lemma {:induction false} CheckOverlapIffPair(metas: seq<Meta>)
    ensures CheckOverlap(metas) <==> exists i, j :: 0 <= i < j < |metas| && Conflict(metas[i], metas[j])
  {
    if metas != [] {
      CheckOverlapIffPair(metas[1..]);
      ConflictsAfterPositive(metas[0], metas[1..]);
      ConflictPairCases(metas);
    }
  }

  /**
   * Fewer than two plots never overlap, and an overlap is always between
   * two plots of the same account.
   */
  lemma OverlapNeedsTwoPlotsOfOneAccount(metas: seq<Meta>)
    ensures |metas| < 2 ==> !CheckOverlap(metas)
    ensures CheckOverlap(metas) ==>
      exists i, j :: 0 <= i < j < |metas| && metas[i].accountId == metas[j].accountId
  {
    CheckOverlapIffPair(metas);
  }

  // ---------------------------------------------------------------------
  // The order in which plots are collected does not matter

  /** Some two entries of the bag (two copies count as two) conflict. */
  ghost predicate BagHasConflict(bag: multiset<Meta>) {
    exists a, b :: a in bag && b in bag && Conflict(a, b) && (a != b || bag[a] >= 2)
  }

  lemma TwoPositions(s: seq<Meta>, i: nat, j: nat)
    requires i < j < |s| && s[i] == s[j]
    ensures multiset(s)[s[i]] >= 2
  {
    assert s == s[..j] + [s[j]] + s[j + 1..];
    assert s[i] in s[..j];
  }

  lemma SecondPosition(s: seq<Meta>, i: nat) returns (j: nat)
    requires i < |s| && multiset(s)[s[i]] >= 2
    ensures j < |s| && j != i && s[j] == s[i]
  {
    var rest := s[..i] + s[i + 1..];
    assert s == s[..i] + [s[i]] + s[i + 1..];
    assert multiset(s) == multiset(rest) + multiset{s[i]};
    assert s[i] in rest;
    var k :| 0 <= k < |rest| && rest[k] == s[i];
    j := if k < i then k else k + 1;
  }

  /** The result depends only on which plots were collected, not on their order. */
  lemma CheckOverlapIffBag(metas: seq<Meta>)
    ensures CheckOverlap(metas) <==> BagHasConflict(multiset(metas))
  {
    CheckOverlapIffPair(metas);
    var bag := multiset(metas);
    if CheckOverlap(metas) {
      var i, j :| 0 <= i < j < |metas| && Conflict(metas[i], metas[j]);
      if metas[i] == metas[j] {
        TwoPositions(metas, i, j);
      }
      assert metas[i] in bag && metas[j] in bag;
    }
    if BagHasConflict(bag) {
      var a, b :| a in bag && b in bag && Conflict(a, b) && (a != b || bag[a] >= 2);
      var i :| 0 <= i < |metas| && metas[i] == a;
      var j: nat;
      if a == b {
        j := SecondPosition(metas, i);
      } else {
        j :| 0 <= j < |metas| && metas[j] == b;
      }
      if i < j {
        assert Conflict(metas[i], metas[j]);
      } else {
        assert Conflict(metas[j], metas[i]);
      }
    }
  }

  lemma CheckOverlapOrderFree(s: seq<Meta>, t: seq<Meta>)
    requires multiset(s) == multiset(t)
    ensures CheckOverlap(s) == CheckOverlap(t)
  {
    CheckOverlapIffBag(s);
    CheckOverlapIffBag(t);
  }

  // ---------------------------------------------------------------------
  // Collecting the plots of every drive

  /** The metadata of a drive's plots, in order. */
  function MetasOf(plots: seq<Plot>): (metas: seq<Meta>)
    ensures |metas| == |plots| && forall i :: 0 <= i < |plots| ==> metas[i] == plots[i].meta
  {
    if plots == [] then [] else [plots[0].meta] + MetasOf(plots[1..])
  }

  /** The metadata of every drive's plots. */
  function MetasByDrive(drives: map<string, seq<Plot>>): map<string, seq<Meta>> {
    map d | d in drives :: MetasOf(drives[d])
  }

  /** Every plot of every drive, as a bag: the map fixes no order. */
  ghost function MetaBag(drives: map<string, seq<Meta>>): multiset<Meta> {
    if drives == map[] then multiset{}
    else
      var d :| d in drives;
      multiset(drives[d]) + MetaBag(drives - {d})
  }

  /** The bag does not depend on which drive is taken out first. */
  lemma {:induction false} MetaBagRemove(drives: map<string, seq<Meta>>, d: string)
    requires d in drives
    ensures MetaBag(drives) == multiset(drives[d]) + MetaBag(drives - {d})
    decreases |drives|
  {
    var e :| e in drives && MetaBag(drives) == multiset(drives[e]) + MetaBag(drives - {e});
    if e != d {
      var withoutE, withoutD := drives - {e}, drives - {d};
      assert |withoutE| < |drives| by { assert drives.Keys - {e} < drives.Keys; }
      assert |withoutD| < |drives| by { assert drives.Keys - {d} < drives.Keys; }
      MetaBagRemove(withoutE, d);
      MetaBagRemove(withoutD, e);
      assert withoutD - {e} == withoutE - {d};
    }
  }

  function Restrict(drives: map<string, seq<Meta>>, keys: set<string>): map<string, seq<Meta>>
    requires keys <= drives.Keys
  {
    map d | d in keys :: drives[d]
  }

  /** Taking one more drive's plots out of the part not yet collected. */
  lemma CollectStep(drives: map<string, seq<Meta>>, left: set<string>, d: string)
    requires d in left && left <= drives.Keys
    ensures MetaBag(Restrict(drives, left)) == multiset(drives[d]) + MetaBag(Restrict(drives, left - {d}))
  {
    MetaBagRemove(Restrict(drives, left), d);
    assert Restrict(drives, left) - {d} == Restrict(drives, left - {d});
  }

  /** The plots of all drives, one drive after the other, in whatever order the map yields them. */
  method CollectMetas(drives: map<string, seq<Plot>>) returns (metas: seq<Meta>)
    ensures multiset(metas) == MetaBag(MetasByDrive(drives))
  {
    ghost var byDrive := MetasByDrive(drives);
    metas := [];
    var left := drives.Keys;
    assert Restrict(byDrive, left) == byDrive;
    while left != {}
      invariant left <= drives.Keys
      invariant multiset(metas) + MetaBag(Restrict(byDrive, left)) == MetaBag(byDrive)
      decreases |left|
    {
      var d :| d in left;
      CollectStep(byDrive, left, d);
      var more := MetasOf(drives[d]);
      assert more == byDrive[d];
      assert multiset(metas + more) == multiset(metas) + multiset(more);
      metas := metas + more;
      left := left - {d};
    }
    assert Restrict(byDrive, left) == map[];
  }

  /** `check_overlap` over the plots of every drive. */
  method CheckOverlapOf(drives: map<string, seq<Plot>>) returns (overlap: bool)
    ensures overlap == BagHasConflict(MetaBag(MetasByDrive(drives)))
  {
    var metas := CollectMetas(drives);
    overlap := CheckOverlap(metas);
    CheckOverlapIffBag(metas);
  }

  // ---------------------------------------------------------------------
  // The reader's plot set

  class Reader {
    var driveIdToPlots: map<string, seq<Plot>>
    var totalSize: U64
    const numThreads: nat
    const showProgress: bool
    const showDriveStats: bool
    const threadPinning: bool

    /** A reader over `drives`; the overlap check, run unless benchmarking, changes nothing. */
    constructor (drives: map<string, seq<Plot>>, totalSize: U64, numThreads: nat,
                 showProgress: bool, showDriveStats: bool, threadPinning: bool, benchmark: bool)
      ensures driveIdToPlots == drives && this.totalSize == totalSize && this.numThreads == numThreads
      ensures this.showProgress == showProgress && this.showDriveStats == showDriveStats
      ensures this.threadPinning == threadPinning
    {
      if !benchmark {
        var _ := CheckOverlapOf(drives);
      }
      driveIdToPlots := drives;
      this.totalSize := totalSize;
      this.numThreads := numThreads;
      this.showProgress := showProgress;
      this.showDriveStats := showDriveStats;
      this.threadPinning := threadPinning;
    }

    /**
     * Replaces the plot set and total size. The overlap verdict (None when
     * benchmarking, where the check is skipped) is only reported; nothing
     * depends on it.
     */
    method UpdatePlots(drives: map<string, seq<Plot>>, totalSize: U64, benchmark: bool)
      returns (overlap: Option<bool>)
      modifies this`driveIdToPlots, this`totalSize
      ensures driveIdToPlots == drives && this.totalSize == totalSize
      ensures benchmark ==> overlap.None?
      ensures !benchmark ==> overlap == Some(BagHasConflict(MetaBag(MetasByDrive(drives))))
    {
      overlap := None;
      if !benchmark {
        var found := CheckOverlapOf(drives);
        overlap := Some(found);
      }
      driveIdToPlots := drives;
      this.totalSize := totalSize;
    }
  }

  // ---------------------------------------------------------------------
  // One drive's read task

  /** What the task hands on with a filled buffer (height, block, base target and gensig pass through). */
  datatype BufferInfo = BufferInfo(len: nat, startNonce: nat, finished: bool, accountId: U64)

  /** One empty buffer taken from the pool, and what happens to it. */
  datatype Delivery = Delivery(capacity: nat, readFails: bool, interrupted: bool, sendFails: bool, elapsedMs: nat)

  /** What the task does, in order. */
  datatype Event =
    | PrepareFailed(plot: nat)
    | ReadFailed(plot: nat)
    | Sent(plot: nat, info: BufferInfo, nextPlot: bool)
    | SendFailed(plot: nat)
    | Interrupted
    | DriveFinished(nonces: nat, elapsed: nat, speed: nat)
  {
    predicate Located() {
      PrepareFailed? || ReadFailed? || Sent? || SendFailed?
    }

    /** The events after which the task stops. */
    predicate Stops() {
      SendFailed? || Interrupted?
    }
  }

  /** Nonces handed on so far: a sent buffer of `len` bytes holds `len / 64` of them. */
  function NoncesSent(events: seq<Event>): nat {
    if events == [] then 0
    else
      var last := events[|events| - 1];
      NoncesSent(events[..|events| - 1]) + (if last.Sent? then last.info.len / 64 else 0)
  }

  /** The logged read speed in MiB/s, in the source's integer arithmetic. */
  function Speed(nonces: nat, elapsedMs: nat): nat {
    nonces * 1000 / (elapsedMs + 1) * 64 / 1024 / 1024
  }

  lemma DivMul(x: nat, d: nat)
    requires d > 0
    ensures (x / d) * d <= x
  {
  }

  /** The logged speed never exceeds the true rate of nonces * 64 bytes over elapsed + 1 ms. */
  lemma SpeedNeverOverstates(nonces: nat, elapsedMs: nat)
    ensures Speed(nonces, elapsedMs) * 1048576 * (elapsedMs + 1) <= nonces * 64 * 1000
  {
    var perSec := nonces * 1000 / (elapsedMs + 1);
    DivMul(nonces * 1000, elapsedMs + 1);
    var bytes := perSec * 64;
    var mib := bytes / 1024 / 1024;
    assert mib == bytes / 1048576;
    DivMul(bytes, 1048576);
    assert mib * 1048576 <= bytes;
    assert mib * 1048576 * (elapsedMs + 1) <= bytes * (elapsedMs + 1);
    assert bytes * (elapsedMs + 1) == (perSec * (elapsedMs + 1)) * 64;
  }

  /** The line logged when a drive is done and drive statistics are shown. */
  function SpeedLine(drive: string, speed: nat): string {
    PadRight("drive " + drive + " finished, speed=" + Decimal(speed) + " MiB/s", 80)
  }

  /** A lower-case key inside the fixed middle of the speed line is found in any log line around it. */
  lemma KeyInSpeedLine(prefix: string, drive: string, speed: nat, suffix: string, a: string, key: string, b: string)
    requires " finished, speed=" == a + key + b && Lower(key) == key
    ensures Contains(Lower(prefix + SpeedLine(drive, speed) + suffix), key)
  {
    var head := "drive " + drive;
    var tail := Decimal(speed) + " MiB/s";
    var text := head + " finished, speed=" + tail;
    var line := SpeedLine(drive, speed);
    var pad := line[|text|..];
    assert line == text + pad;
    Regroup(head, a, key, b, tail);
    assert text == (head + a) + key + (b + tail);
    RegroupRight(head + a, key, b + tail, pad);
    assert line == (head + a) + key + (b + tail + pad);
    Regroup(prefix, head + a, key, b + tail + pad, suffix);
    LowerContainsMiddle(prefix + (head + a), key, b + tail + pad + suffix);
  }

  lemma SpeedKeys()
    ensures " finished, speed=" == " " + "finished" + ", speed="
    ensures " finished, speed=" == " finished, " + "speed" + "="
  {
  }

  lemma SpeedKeysLower()
    ensures Lower("finished") == "finished" && Lower("speed") == "speed"
  {
    LowerNoUpper("finished");
    LowerNoUpper("speed");
  }

  /** The monitor counts the speed line as a completed read, whatever surrounds it. */
  lemma SpeedLineIsReadCompleted(prefix: string, drive: string, speed: nat, suffix: string)
    ensures Ui.IsReadCompleted(prefix + SpeedLine(drive, speed) + suffix)
  {
    SpeedKeys();
    SpeedKeysLower();
    KeyInSpeedLine(prefix, drive, speed, suffix, " ", "finished", ", speed=");
    KeyInSpeedLine(prefix, drive, speed, suffix, " finished, ", "speed", "=");
  }

  ghost predicate SentWellFormed(events: seq<Event>, plots: seq<Plot>) {
    forall k :: 0 <= k < |events| && events[k].Sent? ==>
      && events[k].plot < |plots|
      && events[k].info.accountId == plots[events[k].plot].meta.accountId
      && (events[k].info.finished <==> events[k].plot == |plots| - 1 && events[k].nextPlot)
  }

  ghost predicate Ordered(events: seq<Event>) {
    forall k, l :: 0 <= k < l < |events| && events[k].Located() && events[l].Located() ==>
      && events[k].plot <= events[l].plot
      && (events[k].PrepareFailed? ==> events[k].plot < events[l].plot)
  }

  ghost predicate ReadErrorsHandedOn(events: seq<Event>) {
    forall k :: 0 <= k < |events| && events[k].ReadFailed? ==>
      && k + 1 < |events|
      && (events[k + 1].Stops()
          || (events[k + 1].Sent? && events[k + 1].plot == events[k].plot && events[k + 1].info.len == 0
              && events[k + 1].info.startNonce == 0 && events[k + 1].nextPlot))
  }

  ghost predicate FinishLogged(events: seq<Event>, showDriveStats: bool) {
    forall k :: 0 <= k < |events| && events[k].DriveFinished? ==>
      && showDriveStats && 0 < k && events[k - 1].Sent? && events[k - 1].info.finished
      && events[k].nonces == NoncesSent(events[..k])
      && events[k].speed == Speed(events[k].nonces, events[k].elapsed)
  }

  ghost predicate StopsLast(events: seq<Event>) {
    forall k :: 0 <= k < |events| && events[k].Stops() ==> k == |events| - 1
  }

  ghost predicate PlotsReady(plots: seq<Plot>)
    reads set p | p in plots
  {
    forall i :: 0 <= i < |plots| ==> plots[i].Valid() && (plots[i].useDirectIo ==> plots[i].sectorSize > 0)
  }

  /**
   * The trace so far of a task that has not stopped: its located events
   * name plots below `located`, its skipped plots lie below `skipped`.
   */
  ghost predicate Running(events: seq<Event>, plots: seq<Plot>, located: nat, skipped: nat, showDriveStats: bool) {
    && (forall k :: 0 <= k < |events| && events[k].Located() ==> events[k].plot < located)
    && (forall k :: 0 <= k < |events| && events[k].PrepareFailed? ==> events[k].plot < skipped)
    && (forall k :: 0 <= k < |events| ==> !events[k].Stops())
    && SentWellFormed(events, plots) && Ordered(events)
    && FinishLogged(events, showDriveStats)
  }

  lemma NoncesSentAppend(events: seq<Event>, more: seq<Event>)
    requires forall k :: 0 <= k < |more| ==> !more[k].Sent?
    ensures NoncesSent(events + more) == NoncesSent(events)
    decreases |more|
  {
    if more != [] {
      var all := events + more;
      assert all[|all| - 1] == more[|more| - 1];
      assert all[..|all| - 1] == events + more[..|more| - 1];
      NoncesSentAppend(events, more[..|more| - 1]);
    } else {
      assert events + more == events;
    }
  }

  lemma FinishLoggedAppend(events: seq<Event>, more: seq<Event>, showDriveStats: bool)
    requires FinishLogged(events, showDriveStats)
    requires forall k :: 0 <= k < |more| ==> !more[k].DriveFinished?
    ensures FinishLogged(events + more, showDriveStats)
  {
    var all := events + more;
    forall k | 0 <= k < |events|
      ensures all[..k] == events[..k] && all[k] == events[k]
    {
    }
  }

  /** The speed line is logged right after the finished chunk, with the count so far. */
  lemma FinishLoggedDone(events: seq<Event>, elapsed: nat, showDriveStats: bool)
    requires FinishLogged(events, showDriveStats) && showDriveStats
    requires events != [] && events[|events| - 1].Sent? && events[|events| - 1].info.finished
    ensures var n := NoncesSent(events);
      FinishLogged(events + [DriveFinished(n, elapsed, Speed(n, elapsed))], showDriveStats)
  {
    var n := NoncesSent(events);
    var all := events + [DriveFinished(n, elapsed, Speed(n, elapsed))];
    forall k | 0 <= k < |all| && all[k].DriveFinished?
      ensures && 0 < k && all[k - 1].Sent? && all[k - 1].info.finished
              && all[k].nonces == NoncesSent(all[..k])
              && all[k].speed == Speed(all[k].nonces, all[k].elapsed)
    {
      if k < |events| {
        assert all[k] == events[k] && all[k - 1] == events[k - 1];
        assert all[..k] == events[..k];
      } else {
        assert all[..k] == events;
      }
    }
  }

  lemma SentAppend(events: seq<Event>, e: Event, plots: seq<Plot>)
    requires SentWellFormed(events, plots)
    requires e.Sent? ==>
      && e.plot < |plots| && e.info.accountId == plots[e.plot].meta.accountId
      && (e.info.finished <==> e.plot == |plots| - 1 && e.nextPlot)
    ensures SentWellFormed(events + [e], plots)
  {
    var all := events + [e];
    forall k | 0 <= k < |events|
      ensures all[k] == events[k]
    {
    }
  }

  lemma OrderedAppend(events: seq<Event>, e: Event, located: nat, skipped: nat)
    requires Ordered(events)
    requires forall k :: 0 <= k < |events| && events[k].Located() ==> events[k].plot < located
    requires forall k :: 0 <= k < |events| && events[k].PrepareFailed? ==> events[k].plot < skipped
    requires e.Located() ==> located <= e.plot + 1 && skipped <= e.plot
    ensures Ordered(events + [e])
  {
    var all := events + [e];
    forall k | 0 <= k < |events|
      ensures all[k] == events[k]
    {
    }
  }

  lemma HandedOnAppend(events: seq<Event>, e: Event)
    requires ReadErrorsHandedOn(events) && !e.ReadFailed?
    ensures ReadErrorsHandedOn(events + [e])
  {
    var all := events + [e];
    forall k | 0 <= k < |events|
      ensures all[k] == events[k]
    {
    }
  }

  lemma HandedOnAppendFailed(events: seq<Event>, ip: nat, next: Event)
    requires ReadErrorsHandedOn(events)
    requires next.Stops()
      || (next.Sent? && next.plot == ip && next.info.len == 0 && next.info.startNonce == 0 && next.nextPlot)
    ensures ReadErrorsHandedOn(events + [ReadFailed(ip)] + [next])
  {
    var all := events + [ReadFailed(ip)] + [next];
    assert all[|events|] == ReadFailed(ip) && all[|events| + 1] == next;
    forall k | 0 <= k < |events|
      ensures all[k] == events[k]
    {
    }
  }

  /** A running trace stays running when an event that does not stop the task is added. */
  lemma RunningAppend(events: seq<Event>, e: Event, plots: seq<Plot>, located: nat, skipped: nat,
                      located': nat, skipped': nat, showDriveStats: bool)
    requires Running(events, plots, located, skipped, showDriveStats)
    requires located <= located' && skipped <= skipped' && !e.Stops()
    requires e.Located() ==> located <= e.plot + 1 && skipped <= e.plot && e.plot < located'
    requires e.PrepareFailed? ==> e.plot < skipped'
    requires e.Sent? ==>
      && e.plot < |plots| && e.info.accountId == plots[e.plot].meta.accountId
      && (e.info.finished <==> e.plot == |plots| - 1 && e.nextPlot)
    requires FinishLogged(events + [e], showDriveStats)
    ensures Running(events + [e], plots, located', skipped', showDriveStats)
  {
    var all := events + [e];
    forall k | 0 <= k < |events|
      ensures all[k] == events[k]
    {
    }
    SentAppend(events, e, plots);
    OrderedAppend(events, e, located, skipped);
  }

  /** A plot that cannot be prepared is skipped. */
  lemma SkipPlot(events: seq<Event>, plots: seq<Plot>, ip: nat, showDriveStats: bool)
    requires Running(events, plots, ip, ip, showDriveStats) && ReadErrorsHandedOn(events)
    ensures Running(events + [PrepareFailed(ip)], plots, ip + 1, ip + 1, showDriveStats)
    ensures ReadErrorsHandedOn(events + [PrepareFailed(ip)])
    ensures NoncesSent(events + [PrepareFailed(ip)]) == NoncesSent(events)
  {
    NoncesSentAppend(events, [PrepareFailed(ip)]);
    FinishLoggedAppend(events, [PrepareFailed(ip)], showDriveStats);
    RunningAppend(events, PrepareFailed(ip), plots, ip, ip, ip + 1, ip + 1, showDriveStats);
    HandedOnAppend(events, PrepareFailed(ip));
  }

  /** A buffer is handed on, after an error report when its read failed. */
  lemma HandOn(events: seq<Event>, plots: seq<Plot>, ip: nat, readFailed: bool, info: BufferInfo,
               nextPlot: bool, showDriveStats: bool)
    requires Running(events, plots, ip + 1, ip, showDriveStats) && ReadErrorsHandedOn(events)
    requires ip < |plots| && info.accountId == plots[ip].meta.accountId
    requires info.finished <==> ip == |plots| - 1 && nextPlot
    requires readFailed ==> info.len == 0 && info.startNonce == 0 && nextPlot
    ensures var next := events + (if readFailed then [ReadFailed(ip)] else []) + [Sent(ip, info, nextPlot)];
      && Running(next, plots, ip + 1, ip, showDriveStats) && ReadErrorsHandedOn(next)
      && NoncesSent(next) == NoncesSent(events) + info.len / 64
  {
    var sent := Sent(ip, info, nextPlot);
    var mid := events + (if readFailed then [ReadFailed(ip)] else []);
    var next := mid + [sent];
    if readFailed {
      FinishLoggedAppend(events, [ReadFailed(ip)], showDriveStats);
      RunningAppend(events, ReadFailed(ip), plots, ip + 1, ip, ip + 1, ip, showDriveStats);
      HandedOnAppendFailed(events, ip, sent);
    } else {
      assert mid == events;
      HandedOnAppend(events, sent);
    }
    NoncesSentAppend(events, if readFailed then [ReadFailed(ip)] else []);
    FinishLoggedAppend(mid, [sent], showDriveStats);
    RunningAppend(mid, sent, plots, ip + 1, ip, ip + 1, ip, showDriveStats);
    assert next[..|next| - 1] == mid;
  }

  /** The speed line follows the last chunk of the drive's last plot. */
  lemma LogFinish(events: seq<Event>, plots: seq<Plot>, ip: nat, elapsed: nat, showDriveStats: bool)
    requires Running(events, plots, ip + 1, ip, showDriveStats) && ReadErrorsHandedOn(events) && showDriveStats
    requires events != [] && events[|events| - 1].Sent? && events[|events| - 1].info.finished
    ensures var n := NoncesSent(events);
      var next := events + [DriveFinished(n, elapsed, Speed(n, elapsed))];
      && Running(next, plots, ip + 1, ip, showDriveStats) && ReadErrorsHandedOn(next)
      && NoncesSent(next) == n
  {
    var n := NoncesSent(events);
    var e := DriveFinished(n, elapsed, Speed(n, elapsed));
    NoncesSentAppend(events, [e]);
    FinishLoggedDone(events, elapsed, showDriveStats);
    RunningAppend(events, e, plots, ip + 1, ip, ip + 1, ip, showDriveStats);
    HandedOnAppend(events, e);
  }

  /** The task stops (interrupt or failed send), after an error report when the read failed. */
  lemma Stop(events: seq<Event>, plots: seq<Plot>, ip: nat, readFailed: bool, stop: Event, showDriveStats: bool)
    requires Running(events, plots, ip + 1, ip, showDriveStats) && ReadErrorsHandedOn(events) && ip < |plots|
    requires stop.Stops() && (stop.Located() ==> stop.plot == ip)
    ensures var last := events + (if readFailed then [ReadFailed(ip)] else []) + [stop];
      && SentWellFormed(last, plots) && Ordered(last) && ReadErrorsHandedOn(last)
      && FinishLogged(last, showDriveStats) && StopsLast(last)
      && NoncesSent(last) == NoncesSent(events)
  {
    var mid := events + (if readFailed then [ReadFailed(ip)] else []);
    if readFailed {
      FinishLoggedAppend(events, [ReadFailed(ip)], showDriveStats);
      RunningAppend(events, ReadFailed(ip), plots, ip + 1, ip, ip + 1, ip, showDriveStats);
      HandedOnAppendFailed(events, ip, stop);
      NoncesSentAppend(events, [ReadFailed(ip)]);
    } else {
      assert mid == events;
      HandedOnAppend(events, stop);
    }
    StopAfter(mid, plots, ip, stop, showDriveStats);
  }

  lemma StopAfter(events: seq<Event>, plots: seq<Plot>, ip: nat, stop: Event, showDriveStats: bool)
    requires Running(events, plots, ip + 1, ip, showDriveStats) && ReadErrorsHandedOn(events + [stop])
    requires stop.Stops() && (stop.Located() ==> stop.plot == ip)
    ensures var last := events + [stop];
      && SentWellFormed(last, plots) && Ordered(last) && ReadErrorsHandedOn(last)
      && FinishLogged(last, showDriveStats) && StopsLast(last)
      && NoncesSent(last) == NoncesSent(events)
  {
    var last := events + [stop];
    NoncesSentAppend(events, [stop]);
    FinishLoggedAppend(events, [stop], showDriveStats);
    SentAppend(events, stop, plots);
    OrderedAppend(events, stop, ip + 1, ip);
    forall k | 0 <= k < |events|
      ensures last[k] == events[k] && !last[k].Stops()
    {
    }
  }

  // ---------------------------------------------------------------------
  // The read task as a function of its inputs

  /**
   * Where a task has got to: the next buffer of the pool, the trace, the
   * counters, whether it stopped on an interrupt or a failed send, and
   * whether it waits for a buffer the pool no longer has.
   */
  datatype Run = Run(b: nat, events: seq<Event>, nonces: nat, elapsed: nat, stopped: bool, blocked: bool)

  /** Every plot of the drive may use `ReadStep`: a sector size under direct I/O. */
  predicate PlotsFit(plots: seq<Plot>) {
    forall i :: 0 <= i < |plots| ==> plots[i].useDirectIo ==> plots[i].sectorSize > 0
  }

  lemma ReadyFits(plots: seq<Plot>)
    requires PlotsReady(plots)
    ensures PlotsFit(plots)
  {
  }

  /**
   * What a read at byte `offset` of `scoop` into buffer `d` yields:
   * (bytes, first nonce, plot done), or an empty last chunk when it fails.
   */
  function Chunk(p: Plot, scoop: nat, offset: nat, d: Delivery): (c: (nat, nat, bool))
    requires offset <= SCOOP_SIZE * p.meta.nonces && (p.useDirectIo ==> p.sectorSize > 0)
    ensures offset + c.0 <= SCOOP_SIZE * p.meta.nonces
    ensures d.readFails && !p.dummy ==> c == (0, 0, true)
  {
    if d.readFails && !p.dummy then (0, 0, true)
    else
      var step := ReadStep(offset, d.capacity, p.meta.nonces, p.useDirectIo, p.sectorSize);
      (step.0, ChunkStart(p.meta, scoop, offset), step.1)
  }

  /**
   * The run after buffer `d` carries chunk `c` = (bytes, first nonce, plot
   * done) of plot `ip` (the drive's last plot when `last`, of account
   * `account`), after an error report when the read `failed`.
   */
  function HandOnRun(ip: nat, last: bool, show: bool, account: U64, failed: bool, c: (nat, nat, bool),
                     d: Delivery, r: Run): (out: Run)
    ensures out.b == r.b + 1
    ensures out.stopped <==> d.interrupted || d.sendFails
    ensures out.stopped ==> out.nonces == r.nonces && out.elapsed == r.elapsed
  {
    var (len, start, nextPlot) := c;
    var pre := r.events + (if failed then [ReadFailed(ip)] else []);
    if d.interrupted then Run(r.b + 1, pre + [Interrupted], r.nonces, r.elapsed, true, false)
    else if d.sendFails then Run(r.b + 1, pre + [SendFailed(ip)], r.nonces, r.elapsed, true, false)
    else
      var finished := last && nextPlot;
      var n := r.nonces + len / 64;
      var e := if show then r.elapsed + d.elapsedMs else r.elapsed;
      var sent := pre + [Sent(ip, BufferInfo(len, start, finished, account), nextPlot)];
      if finished && show then Run(r.b + 1, sent + [DriveFinished(n, e, Speed(n, e))], n, e, false, false)
      else Run(r.b + 1, sent, n, e, false, false)
  }

  /** The run after one buffer of plot `ip`, read at byte `offset`. */
  function Deliver(p: Plot, ip: nat, last: bool, scoop: nat, show: bool, offset: nat, d: Delivery, r: Run): (out: Run)
    requires offset <= SCOOP_SIZE * p.meta.nonces && (p.useDirectIo ==> p.sectorSize > 0)
    ensures out.b == r.b + 1
    ensures out.stopped <==> d.interrupted || d.sendFails
  {
    HandOnRun(ip, last, show, p.meta.accountId, d.readFails && !p.dummy, Chunk(p, scoop, offset, d), d, r)
  }

  /**
   * Reading plot `ip` from byte `offset` and buffer `r.b` on, until it is
   * done or the task stops. The plot still needs a buffer, so an empty pool
   * blocks the task: the source waits on the pool's channel, whose sender
   * the task itself holds, for ever.
   */
  function PlotRun(p: Plot, ip: nat, last: bool, scoop: nat, buffers: seq<Delivery>, show: bool, offset: nat,
                   r: Run): (out: Run)
    requires offset <= SCOOP_SIZE * p.meta.nonces && (p.useDirectIo ==> p.sectorSize > 0)
    requires r.b <= |buffers|
    ensures r.b <= out.b <= |buffers|
    ensures out.blocked ==> out.b == |buffers| && !out.stopped
    decreases |buffers| - r.b
  {
    if r.b == |buffers| then r.(stopped := false, blocked := true)
    else
      var next := Deliver(p, ip, last, scoop, show, offset, buffers[r.b], r);
      var (len, _, nextPlot) := Chunk(p, scoop, offset, buffers[r.b]);
      if next.stopped || nextPlot then next
      else PlotRun(p, ip, last, scoop, buffers, show, offset + len, next)
  }

  /** One step of `PlotRun`: the next buffer, then the rest of the plot unless it is done or the task stopped. */
  lemma PlotRunStep(p: Plot, ip: nat, last: bool, scoop: nat, buffers: seq<Delivery>, show: bool, offset: nat, r: Run)
    requires offset <= SCOOP_SIZE * p.meta.nonces && (p.useDirectIo ==> p.sectorSize > 0)
    requires r.b < |buffers|
    ensures var next, c := Deliver(p, ip, last, scoop, show, offset, buffers[r.b], r), Chunk(p, scoop, offset, buffers[r.b]);
      PlotRun(p, ip, last, scoop, buffers, show, offset, r)
        == if next.stopped || c.2 then next else PlotRun(p, ip, last, scoop, buffers, show, offset + c.0, next)
  {
  }

  /** A buffer that leaves the plot unfinished and the task running leaves the rest of the plot to read. */
  lemma PlotRunAdvance(p: Plot, ip: nat, last: bool, scoop: nat, buffers: seq<Delivery>, show: bool, offset: nat,
                       r: Run, next: Run, offset': nat)
    requires offset <= SCOOP_SIZE * p.meta.nonces && (p.useDirectIo ==> p.sectorSize > 0)
    requires r.b < |buffers|
    requires next == Deliver(p, ip, last, scoop, show, offset, buffers[r.b], r) && !next.stopped
    requires !Chunk(p, scoop, offset, buffers[r.b]).2 && offset' == offset + Chunk(p, scoop, offset, buffers[r.b]).0
    ensures offset' <= SCOOP_SIZE * p.meta.nonces && next.b <= |buffers|
    ensures PlotRun(p, ip, last, scoop, buffers, show, offset, r) == PlotRun(p, ip, last, scoop, buffers, show, offset', next)
  {
  }

  /** Plot `ip`'s turn: skipped when it cannot be prepared, else read from the scoop's start. */
  function PlotTurn(plots: seq<Plot>, ip: nat, scoop: nat, prepareFails: bool, buffers: seq<Delivery>, show: bool,
                    r: Run): (out: Run)
    requires ip < |plots| && PlotsFit(plots) && r.b <= |buffers|
    ensures r.b <= out.b <= |buffers|
  {
    if prepareFails then Run(r.b, r.events + [PrepareFailed(ip)], r.nonces, r.elapsed, false, false)
    else PlotRun(plots[ip], ip, ip == |plots| - 1, scoop, buffers, show, 0, r)
  }

  /** The task from plot `ip` on: each plot's turn in order, until one stops or blocks it. */
  function TaskRun(plots: seq<Plot>, scoop: nat, prepareFails: seq<bool>, buffers: seq<Delivery>, show: bool,
                   ip: nat, r: Run): (out: Run)
    requires ip <= |plots| == |prepareFails| && PlotsFit(plots) && r.b <= |buffers|
    ensures r.b <= out.b <= |buffers|
    decreases |plots| - ip
  {
    if ip == |plots| then r
    else
      var next := PlotTurn(plots, ip, scoop, prepareFails[ip], buffers, show, r);
      if next.stopped || next.blocked then next else TaskRun(plots, scoop, prepareFails, buffers, show, ip + 1, next)
  }

  /** The properties of a finished trace, stopped or not. */
  ghost predicate Sound(events: seq<Event>, plots: seq<Plot>, showDriveStats: bool) {
    && SentWellFormed(events, plots) && Ordered(events) && ReadErrorsHandedOn(events)
    && FinishLogged(events, showDriveStats) && StopsLast(events)
  }

  /**
   * The first half of one pass of the chunk loop: reads the next chunk of
   * plot `ip` into `buffer`. `readFailed` says the read failed (never for a dummy
   * plot), and `c` is the chunk handed on: (bytes, first nonce, plot done).
   */
  method ReadBuffer(plots: seq<Plot>, ip: nat, scoop: nat, buffer: Delivery) returns (readFailed: bool, c: (nat, nat, bool))
    requires ip < |plots| && PlotsReady(plots)
    modifies plots[ip]
    ensures PlotsReady(plots)
    ensures readFailed <==> buffer.readFails && !plots[ip].dummy
    ensures c == Chunk(plots[ip], scoop, old(plots[ip].readOffset), buffer)
    ensures plots[ip].readOffset == old(plots[ip].readOffset) + c.0
  {
    var p := plots[ip];
    var result, addr := p.Read(buffer.capacity, scoop, buffer.readFails);
    if result.Ok? {
      readFailed, c := false, result.value;
    } else {
      readFailed, c := true, (0, 0, true);
    }
    forall i | 0 <= i < |plots|
      ensures plots[i].Valid() && (plots[i].useDirectIo ==> plots[i].sectorSize > 0)
    {
      assert plots[i] == p || unchanged(plots[i]);
    }
  }

  /**
   * The second half of one pass: a buffer filled with chunk `c` is handed on
   * (after an error report when the read failed), or the task stops on an
   * interrupt or a failed send; the last chunk of the drive is followed by
   * the speed line when drive statistics are on.
   */
  method SendBuffer(plots: seq<Plot>, ip: nat, showDriveStats: bool, readFailed: bool, c: (nat, nat, bool),
                    buffer: Delivery, b: nat, events0: seq<Event>, nonces0: nat, elapsed0: nat)
    returns (events: seq<Event>, noncesProcessed: nat, elapsed: nat, stopped: bool)
    requires ip < |plots| && (readFailed ==> c == (0, 0, true))
    requires Running(events0, plots, ip + 1, ip, showDriveStats) && ReadErrorsHandedOn(events0)
    requires nonces0 == NoncesSent(events0) && (!showDriveStats ==> elapsed0 == 0)
    ensures noncesProcessed == NoncesSent(events) && (!showDriveStats ==> elapsed == 0)
    ensures !stopped ==> Running(events, plots, ip + 1, ip, showDriveStats) && ReadErrorsHandedOn(events)
    ensures stopped ==> Sound(events, plots, showDriveStats)
    ensures Run(b + 1, events, noncesProcessed, elapsed, stopped, false)
      == HandOnRun(ip, ip == |plots| - 1, showDriveStats, plots[ip].meta.accountId, readFailed, c, buffer,
                   Run(b, events0, nonces0, elapsed0, false, false))
  {
    var (bytesRead, startNonce, nextPlot) := c;
    ghost var spec := HandOnRun(ip, ip == |plots| - 1, showDriveStats, plots[ip].meta.accountId, readFailed, c,
                                buffer, Run(b, events0, nonces0, elapsed0, false, false));
    events, noncesProcessed, elapsed := events0, nonces0, elapsed0;
    if buffer.interrupted {
      events := events + (if readFailed then [ReadFailed(ip)] else []) + [Interrupted];
      assert Run(b + 1, events, noncesProcessed, elapsed, true, false) == spec;
      Stop(events0, plots, ip, readFailed, Interrupted, showDriveStats);
      return events, noncesProcessed, elapsed, true;
    }
    var finished := ip == |plots| - 1 && nextPlot;
    var info := BufferInfo(bytesRead, startNonce, finished, plots[ip].meta.accountId);
    if buffer.sendFails {
      events := events + (if readFailed then [ReadFailed(ip)] else []) + [SendFailed(ip)];
      assert Run(b + 1, events, noncesProcessed, elapsed, true, false) == spec;
      Stop(events0, plots, ip, readFailed, SendFailed(ip), showDriveStats);
      return events, noncesProcessed, elapsed, true;
    }
    events := events + (if readFailed then [ReadFailed(ip)] else []) + [Sent(ip, info, nextPlot)];
    ghost var sent := events;
    noncesProcessed := noncesProcessed + bytesRead / 64;
    if showDriveStats {
      elapsed := elapsed + buffer.elapsedMs;
    }
    if finished && showDriveStats {
      events := events + [DriveFinished(noncesProcessed, elapsed, Speed(noncesProcessed, elapsed))];
    }
    stopped := false;
    assert Run(b + 1, events, noncesProcessed, elapsed, stopped, false) == spec;
    HandOn(events0, plots, ip, readFailed, info, nextPlot, showDriveStats);
    if finished && showDriveStats {
      LogFinish(sent, plots, ip, elapsed, showDriveStats);
    }
  }

  /**
   * Reads plot `ip`, already prepared, chunk by chunk from buffer `b` on,
   * until the plot is done or the task stops; `blocked` when the pool has
   * no buffer left for it.
   */
  method ReadPlot(plots: seq<Plot>, ip: nat, scoop: nat, buffers: seq<Delivery>, b0: nat,
                  events0: seq<Event>, nonces0: nat, elapsed0: nat, showDriveStats: bool)
    returns (b: nat, events: seq<Event>, noncesProcessed: nat, elapsed: nat, stopped: bool, blocked: bool)
    requires ip < |plots| && b0 <= |buffers|
    requires PlotsReady(plots)
    requires Running(events0, plots, ip + 1, ip, showDriveStats) && ReadErrorsHandedOn(events0)
    requires nonces0 == NoncesSent(events0) && (!showDriveStats ==> elapsed0 == 0)
    modifies plots[ip]
    ensures PlotsReady(plots)
    ensures b0 <= b <= |buffers|
    ensures noncesProcessed == NoncesSent(events) && (!showDriveStats ==> elapsed == 0)
    ensures !stopped ==> Running(events, plots, ip + 1, ip, showDriveStats) && ReadErrorsHandedOn(events)
    ensures stopped ==> Sound(events, plots, showDriveStats)
    ensures Run(b, events, noncesProcessed, elapsed, stopped, blocked)
      == PlotRun(plots[ip], ip, ip == |plots| - 1, scoop, buffers, showDriveStats, old(plots[ip].readOffset),
                 Run(b0, events0, nonces0, elapsed0, false, false))
  {
    var p := plots[ip];
    var last := ip == |plots| - 1;
    ghost var spec := PlotRun(p, ip, last, scoop, buffers, showDriveStats, p.readOffset,
                              Run(b0, events0, nonces0, elapsed0, false, false));
    b, events, noncesProcessed, elapsed, stopped, blocked := b0, events0, nonces0, elapsed0, false, false;
    while b < |buffers|
      invariant b0 <= b <= |buffers| && !stopped
      invariant PlotsReady(plots)
      invariant Running(events, plots, ip + 1, ip, showDriveStats) && ReadErrorsHandedOn(events)
      invariant noncesProcessed == NoncesSent(events) && (!showDriveStats ==> elapsed == 0)
      invariant spec == PlotRun(p, ip, last, scoop, buffers, showDriveStats, p.readOffset,
                                Run(b, events, noncesProcessed, elapsed, false, false))
    {
      ghost var offset, r := p.readOffset, Run(b, events, noncesProcessed, elapsed, false, false);
      ghost var next := Deliver(p, ip, last, scoop, showDriveStats, offset, buffers[b], r);
      var readFailed, c := ReadBuffer(plots, ip, scoop, buffers[b]);
      assert next == HandOnRun(ip, last, showDriveStats, p.meta.accountId, readFailed, c, buffers[b], r);
      events, noncesProcessed, elapsed, stopped :=
        SendBuffer(plots, ip, showDriveStats, readFailed, c, buffers[b], b, events, noncesProcessed, elapsed);
      b := b + 1;
      assert Run(b, events, noncesProcessed, elapsed, stopped, false) == next;
      if stopped || c.2 {
        PlotRunStep(p, ip, last, scoop, buffers, showDriveStats, offset, r);
        return;
      }
      PlotRunAdvance(p, ip, last, scoop, buffers, showDriveStats, offset, r,
                     Run(b, events, noncesProcessed, elapsed, false, false), p.readOffset);
    }
    blocked := true;
  }

  /** Prepares plot `ip` for `scoop`, skipping it if that fails, and reads it (or blocks on an empty pool). */
  method ServePlot(plots: seq<Plot>, ip: nat, scoop: nat, prepareFails: bool, buffers: seq<Delivery>, b0: nat,
                   events0: seq<Event>, nonces0: nat, elapsed0: nat, showDriveStats: bool)
    returns (b: nat, events: seq<Event>, noncesProcessed: nat, elapsed: nat, stopped: bool, blocked: bool)
    requires ip < |plots| && b0 <= |buffers| && scoop < SCOOPS_IN_NONCE
    requires PlotsReady(plots)
    requires Running(events0, plots, ip, ip, showDriveStats) && ReadErrorsHandedOn(events0)
    requires nonces0 == NoncesSent(events0) && (!showDriveStats ==> elapsed0 == 0)
    modifies plots[ip]
    ensures PlotsReady(plots)
    ensures b0 <= b <= |buffers|
    ensures noncesProcessed == NoncesSent(events) && (!showDriveStats ==> elapsed == 0)
    ensures !stopped ==> Running(events, plots, ip + 1, ip + 1, showDriveStats) && ReadErrorsHandedOn(events)
    ensures stopped ==> Sound(events, plots, showDriveStats)
    ensures PlotsFit(plots) && Run(b, events, noncesProcessed, elapsed, stopped, blocked)
      == PlotTurn(plots, ip, scoop, prepareFails, buffers, showDriveStats, Run(b0, events0, nonces0, elapsed0, false, false))
  {
    ReadyFits(plots);
    var p := plots[ip];
    var prepared := p.Prepare(scoop, prepareFails, false);
    if prepared.Err? {
      SkipPlot(events0, plots, ip, showDriveStats);
      return b0, events0 + [PrepareFailed(ip)], nonces0, elapsed0, false, false;
    }
    b, events, noncesProcessed, elapsed, stopped, blocked :=
      ReadPlot(plots, ip, scoop, buffers, b0, events0, nonces0, elapsed0, showDriveStats);
  }

  /**
   * The read task of one drive for one round: each plot in turn is
   * prepared for `scoop` (and skipped if that fails), then read chunk by
   * chunk into buffers from the pool. A failed read is handed on as an
   * empty last chunk; an interrupt returns the buffer and stops the task
   * without sending; a failed send stops it; only the last chunk of the
   * last plot is marked finished. When the pool has no buffer left for a
   * prepared plot the task waits for ever; the model ends it there.
   */
  method ReadTask(plots: seq<Plot>, scoop: nat, prepareFails: seq<bool>, buffers: seq<Delivery>,
                  showDriveStats: bool)
    returns (events: seq<Event>, noncesProcessed: nat, elapsed: nat)
    requires |prepareFails| == |plots| && scoop < SCOOPS_IN_NONCE
    requires PlotsReady(plots)
    modifies set p | p in plots
    ensures noncesProcessed == NoncesSent(events)
    ensures SentWellFormed(events, plots)
    ensures Ordered(events)
    ensures ReadErrorsHandedOn(events)
    ensures FinishLogged(events, showDriveStats)
    ensures StopsLast(events)
    ensures !showDriveStats ==> elapsed == 0
    ensures PlotsFit(plots)
    ensures var out := TaskRun(plots, scoop, prepareFails, buffers, showDriveStats, 0, Run(0, [], 0, 0, false, false));
      events == out.events && noncesProcessed == out.nonces && elapsed == out.elapsed
  {
    ReadyFits(plots);
    ghost var spec := TaskRun(plots, scoop, prepareFails, buffers, showDriveStats, 0, Run(0, [], 0, 0, false, false));
    events, noncesProcessed, elapsed := [], 0, 0;
    var b := 0;
    var ip := 0;
    while ip < |plots|
      invariant 0 <= ip <= |plots| && 0 <= b <= |buffers|
      invariant PlotsReady(plots)
      invariant Running(events, plots, ip, ip, showDriveStats) && ReadErrorsHandedOn(events)
      invariant noncesProcessed == NoncesSent(events) && (!showDriveStats ==> elapsed == 0)
      invariant spec == TaskRun(plots, scoop, prepareFails, buffers, showDriveStats, ip,
                                Run(b, events, noncesProcessed, elapsed, false, false))
    {
      var stopped, blocked;
      b, events, noncesProcessed, elapsed, stopped, blocked :=
        ServePlot(plots, ip, scoop, prepareFails[ip], buffers, b, events, noncesProcessed, elapsed, showDriveStats);
      if stopped || blocked {
        return;
      }
      ip := ip + 1;
    }
  }

  // ---------------------------------------------------------------------
  // What the task promises: the trace grows, every plot gets its turn,
  // the task stops at the first interrupt or failed send

  lemma PrefixTrans(a: seq<Event>, b: seq<Event>, c: seq<Event>)
    requires a <= b && b <= c
    ensures a <= c
  {
    assert c[..|a|] == c[..|b|][..|a|];
  }

  /** The task never takes back an event. */
  lemma {:induction false} PlotRunExtends(p: Plot, ip: nat, last: bool, scoop: nat, buffers: seq<Delivery>, show: bool,
                                          offset: nat, r: Run)
    requires offset <= SCOOP_SIZE * p.meta.nonces && (p.useDirectIo ==> p.sectorSize > 0)
    requires r.b <= |buffers|
    ensures r.events <= PlotRun(p, ip, last, scoop, buffers, show, offset, r).events
    decreases |buffers| - r.b
  {
    if r.b < |buffers| {
      PlotRunStep(p, ip, last, scoop, buffers, show, offset, r);
      var next, c := Deliver(p, ip, last, scoop, show, offset, buffers[r.b], r), Chunk(p, scoop, offset, buffers[r.b]);
      assert r.events <= next.events;
      if !next.stopped && !c.2 {
        PlotRunExtends(p, ip, last, scoop, buffers, show, offset + c.0, next);
        PrefixTrans(r.events, next.events, PlotRun(p, ip, last, scoop, buffers, show, offset + c.0, next).events);
      }
    }
  }

  lemma {:induction false} TaskRunExtends(plots: seq<Plot>, scoop: nat, prepareFails: seq<bool>, buffers: seq<Delivery>,
                                          show: bool, ip: nat, r: Run)
    requires ip <= |plots| == |prepareFails| && PlotsFit(plots) && r.b <= |buffers|
    ensures r.events <= TaskRun(plots, scoop, prepareFails, buffers, show, ip, r).events
    decreases |plots| - ip
  {
    if ip < |plots| {
      var next := PlotTurn(plots, ip, scoop, prepareFails[ip], buffers, show, r);
      if !prepareFails[ip] {
        PlotRunExtends(plots[ip], ip, ip == |plots| - 1, scoop, buffers, show, 0, r);
      }
      if !next.stopped {
        TaskRunExtends(plots, scoop, prepareFails, buffers, show, ip + 1, next);
        PrefixTrans(r.events, next.events, TaskRun(plots, scoop, prepareFails, buffers, show, ip + 1, next).events);
      }
    }
  }

  /** Plot `i` had its turn: it was skipped, or a chunk ended it. */
  ghost predicate Served(events: seq<Event>, i: nat) {
    exists k :: 0 <= k < |events| && events[k].Located() && events[k].plot == i
      && (events[k].PrepareFailed? || (events[k].Sent? && events[k].nextPlot))
  }

  lemma ServedKept(a: seq<Event>, b: seq<Event>, i: nat)
    requires a <= b && Served(a, i)
    ensures Served(b, i)
  {
    var k :| 0 <= k < |a| && a[k].Located() && a[k].plot == i
      && (a[k].PrepareFailed? || (a[k].Sent? && a[k].nextPlot));
    assert b[k] == a[k];
  }

  /** A plot is read until a chunk ends it, unless the empty pool blocks it or the task stops first. */
  lemma {:induction false} PlotRunServes(p: Plot, ip: nat, last: bool, scoop: nat, buffers: seq<Delivery>, show: bool,
                                         offset: nat, r: Run)
    requires offset <= SCOOP_SIZE * p.meta.nonces && (p.useDirectIo ==> p.sectorSize > 0)
    requires r.b <= |buffers|
    ensures var out := PlotRun(p, ip, last, scoop, buffers, show, offset, r);
      out.stopped || out.blocked || Served(out.events, ip)
    decreases |buffers| - r.b
  {
    if r.b < |buffers| {
      PlotRunStep(p, ip, last, scoop, buffers, show, offset, r);
      var next, c := Deliver(p, ip, last, scoop, show, offset, buffers[r.b], r), Chunk(p, scoop, offset, buffers[r.b]);
      if !next.stopped {
        if c.2 {
          var k := |r.events| + (if buffers[r.b].readFails && !p.dummy then 1 else 0);
          assert next.events[k] == Sent(ip, BufferInfo(c.0, c.1, last && c.2, p.meta.accountId), c.2);
        } else {
          PlotRunServes(p, ip, last, scoop, buffers, show, offset + c.0, next);
        }
      }
    }
  }

  /**
   * The task ends only when every plot from `ip` on has had its turn, the
   * empty pool blocked it, or it was stopped.
   */
  lemma {:induction false} TaskRunServes(plots: seq<Plot>, scoop: nat, prepareFails: seq<bool>, buffers: seq<Delivery>,
                                         show: bool, ip: nat, r: Run)
    requires ip <= |plots| == |prepareFails| && PlotsFit(plots) && r.b <= |buffers|
    ensures var out := TaskRun(plots, scoop, prepareFails, buffers, show, ip, r);
      out.stopped || out.blocked || forall i :: ip <= i < |plots| ==> Served(out.events, i)
    decreases |plots| - ip
  {
    if ip < |plots| {
      var next := PlotTurn(plots, ip, scoop, prepareFails[ip], buffers, show, r);
      if prepareFails[ip] {
        assert next.events[|r.events|] == PrepareFailed(ip);
      } else {
        PlotRunServes(plots[ip], ip, ip == |plots| - 1, scoop, buffers, show, 0, r);
      }
      if !next.stopped {
        var out := TaskRun(plots, scoop, prepareFails, buffers, show, ip + 1, next);
        TaskRunServes(plots, scoop, prepareFails, buffers, show, ip + 1, next);
        TaskRunExtends(plots, scoop, prepareFails, buffers, show, ip + 1, next);
        if Served(next.events, ip) {
          ServedKept(next.events, out.events, ip);
        }
      }
    }
  }

  /** The task is blocked only once the pool is empty, and never after a stop. */
  lemma {:induction false} TaskRunBlockedOnlyDry(plots: seq<Plot>, scoop: nat, prepareFails: seq<bool>,
                                                 buffers: seq<Delivery>, show: bool, ip: nat, r: Run)
    requires ip <= |plots| == |prepareFails| && PlotsFit(plots) && r.b <= |buffers| && !r.blocked
    ensures var out := TaskRun(plots, scoop, prepareFails, buffers, show, ip, r);
      out.blocked ==> out.b == |buffers| && !out.stopped
    decreases |plots| - ip
  {
    if ip < |plots| {
      var next := PlotTurn(plots, ip, scoop, prepareFails[ip], buffers, show, r);
      if !next.stopped && !next.blocked {
        TaskRunBlockedOnlyDry(plots, scoop, prepareFails, buffers, show, ip + 1, next);
      }
    }
  }

  /** The skip events of plots `ip` up to `j`, each of which could not be prepared. */
  function Skips(ip: nat, j: nat): (es: seq<Event>)
    ensures |es| == if ip <= j then j - ip else 0
    ensures forall k :: 0 <= k < |es| ==> es[k] == PrepareFailed(ip + k)
    decreases j - ip
  {
    if ip < j then [PrepareFailed(ip)] + Skips(ip + 1, j) else []
  }

  /**
   * On an empty pool the first plot that can be prepared blocks the task:
   * the plots before it are skipped, and no plot after it is ever prepared
   * or read.
   */
  lemma {:induction false} TaskRunBlocksOnDryPool(plots: seq<Plot>, scoop: nat, prepareFails: seq<bool>,
                                                  buffers: seq<Delivery>, show: bool, ip: nat, r: Run, j: nat)
    requires ip <= j < |plots| == |prepareFails| && PlotsFit(plots) && r.b == |buffers|
    requires !prepareFails[j] && forall i :: ip <= i < j ==> prepareFails[i]
    ensures TaskRun(plots, scoop, prepareFails, buffers, show, ip, r)
      == Run(r.b, r.events + Skips(ip, j), r.nonces, r.elapsed, false, true)
    decreases j - ip
  {
    if ip == j {
      assert r.events + Skips(ip, j) == r.events;
    } else {
      var next := Run(r.b, r.events + [PrepareFailed(ip)], r.nonces, r.elapsed, false, false);
      assert PlotTurn(plots, ip, scoop, prepareFails[ip], buffers, show, r) == next;
      TaskRunBlocksOnDryPool(plots, scoop, prepareFails, buffers, show, ip + 1, next, j);
      assert next.events + Skips(ip + 1, j) == r.events + Skips(ip, j);
    }
  }

  /** None of the first `n` buffers of the pool interrupts or fails to send. */
  predicate Calm(buffers: seq<Delivery>, n: nat) {
    forall j :: 0 <= j < n && j < |buffers| ==> !buffers[j].interrupted && !buffers[j].sendFails
  }

  /** A plot's reading stops the task exactly at the first buffer that interrupts or fails to send. */
  lemma {:induction false} PlotRunStops(p: Plot, ip: nat, last: bool, scoop: nat, buffers: seq<Delivery>, show: bool,
                                        offset: nat, r: Run)
    requires offset <= SCOOP_SIZE * p.meta.nonces && (p.useDirectIo ==> p.sectorSize > 0)
    requires r.b <= |buffers| && !r.stopped && Calm(buffers, r.b)
    ensures var out := PlotRun(p, ip, last, scoop, buffers, show, offset, r);
      && (out.stopped <==> !Calm(buffers, out.b))
      && (out.stopped ==> 0 < out.b && Calm(buffers, out.b - 1))
    decreases |buffers| - r.b
  {
    if r.b < |buffers| {
      PlotRunStep(p, ip, last, scoop, buffers, show, offset, r);
      var next, c := Deliver(p, ip, last, scoop, show, offset, buffers[r.b], r), Chunk(p, scoop, offset, buffers[r.b]);
      if next.stopped {
        assert buffers[r.b].interrupted || buffers[r.b].sendFails;
      } else if !c.2 {
        PlotRunStops(p, ip, last, scoop, buffers, show, offset + c.0, next);
      }
    }
  }

  /**
   * The task stops exactly at the first buffer of the pool that interrupts
   * or fails to send; before it, every buffer was handed on.
   */
  lemma {:induction false} TaskRunStops(plots: seq<Plot>, scoop: nat, prepareFails: seq<bool>, buffers: seq<Delivery>,
                                        show: bool, ip: nat, r: Run)
    requires ip <= |plots| == |prepareFails| && PlotsFit(plots) && r.b <= |buffers| && !r.stopped && Calm(buffers, r.b)
    ensures var out := TaskRun(plots, scoop, prepareFails, buffers, show, ip, r);
      && (out.stopped <==> !Calm(buffers, out.b))
      && (out.stopped ==> 0 < out.b && Calm(buffers, out.b - 1))
    decreases |plots| - ip
  {
    if ip < |plots| {
      var next := PlotTurn(plots, ip, scoop, prepareFails[ip], buffers, show, r);
      if !prepareFails[ip] {
        PlotRunStops(plots[ip], ip, ip == |plots| - 1, scoop, buffers, show, 0, r);
      }
      if !next.stopped {
        TaskRunStops(plots, scoop, prepareFails, buffers, show, ip + 1, next);
      }
    }
  }

  /** With drive statistics on, the speed line comes right after the drive's finished chunk. */
  ghost predicate FinishFollowed(events: seq<Event>, showDriveStats: bool) {
    forall k :: 0 <= k < |events| && events[k].Sent? && events[k].info.finished && showDriveStats ==>
      k + 1 < |events| && events[k + 1].DriveFinished?
  }

  lemma FinishFollowedAppend(a: seq<Event>, b: seq<Event>, show: bool)
    requires FinishFollowed(a, show) && FinishFollowed(b, show)
    ensures FinishFollowed(a + b, show)
  {
    forall k | 0 <= k < |a + b| && (a + b)[k].Sent? && (a + b)[k].info.finished && show
      ensures k + 1 < |a + b| && (a + b)[k + 1].DriveFinished?
    {
      if k < |a| {
        assert (a + b)[k] == a[k] && (a + b)[k + 1] == a[k + 1];
      } else {
        assert (a + b)[k] == b[k - |a|] && (a + b)[k + 1] == b[k + 1 - |a|];
      }
    }
  }

  lemma HandOnRunFollowed(ip: nat, last: bool, show: bool, account: U64, failed: bool, c: (nat, nat, bool),
                          d: Delivery, r: Run)
    requires FinishFollowed(r.events, show)
    ensures FinishFollowed(HandOnRun(ip, last, show, account, failed, c, d, r).events, show)
  {
    var out := HandOnRun(ip, last, show, account, failed, c, d, r);
    var pre: seq<Event> := if failed then [ReadFailed(ip)] else [];
    var tail: seq<Event> :=
      if d.interrupted then [Interrupted]
      else if d.sendFails then [SendFailed(ip)]
      else
        var n := r.nonces + c.0 / 64;
        var e := if show then r.elapsed + d.elapsedMs else r.elapsed;
        [Sent(ip, BufferInfo(c.0, c.1, last && c.2, account), c.2)]
          + (if last && c.2 && show then [DriveFinished(n, e, Speed(n, e))] else []);
    assert out.events == r.events + (pre + tail);
    FinishFollowedAppend(r.events, pre + tail, show);
  }

  lemma {:induction false} PlotRunFollowed(p: Plot, ip: nat, last: bool, scoop: nat, buffers: seq<Delivery>, show: bool,
                                           offset: nat, r: Run)
    requires offset <= SCOOP_SIZE * p.meta.nonces && (p.useDirectIo ==> p.sectorSize > 0)
    requires r.b <= |buffers| && FinishFollowed(r.events, show)
    ensures FinishFollowed(PlotRun(p, ip, last, scoop, buffers, show, offset, r).events, show)
    decreases |buffers| - r.b
  {
    if r.b < |buffers| {
      PlotRunStep(p, ip, last, scoop, buffers, show, offset, r);
      var d, c := buffers[r.b], Chunk(p, scoop, offset, buffers[r.b]);
      HandOnRunFollowed(ip, last, show, p.meta.accountId, d.readFails && !p.dummy, c, d, r);
      var next := Deliver(p, ip, last, scoop, show, offset, d, r);
      if !next.stopped && !c.2 {
        PlotRunFollowed(p, ip, last, scoop, buffers, show, offset + c.0, next);
      }
    }
  }

  /**
   * With drive statistics on, a chunk marked finished is always followed by
   * the speed line: together with `FinishLogged`, the speed line appears
   * exactly after the drive's finished chunk.
   */
  lemma {:induction false} TaskRunFollowed(plots: seq<Plot>, scoop: nat, prepareFails: seq<bool>, buffers: seq<Delivery>,
                                           show: bool, ip: nat, r: Run)
    requires ip <= |plots| == |prepareFails| && PlotsFit(plots) && r.b <= |buffers| && FinishFollowed(r.events, show)
    ensures FinishFollowed(TaskRun(plots, scoop, prepareFails, buffers, show, ip, r).events, show)
    decreases |plots| - ip
  {
    if ip < |plots| {
      var next := PlotTurn(plots, ip, scoop, prepareFails[ip], buffers, show, r);
      if prepareFails[ip] {
        FinishFollowedAppend(r.events, [PrepareFailed(ip)], show);
      } else {
        PlotRunFollowed(plots[ip], ip, ip == |plots| - 1, scoop, buffers, show, 0, r);
      }
      if !next.stopped {
        TaskRunFollowed(plots, scoop, prepareFails, buffers, show, ip + 1, next);
      }
    }
  }

  // ---------------------------------------------------------------------
  // A whole plot: every byte of the scoop once

  /** Bytes handed on for plot `i`. */
  function PlotBytes(events: seq<Event>, i: nat): nat {
    if events == [] then 0
    else
      var last := events[|events| - 1];
      PlotBytes(events[..|events| - 1], i) + (if last.Sent? && last.plot == i then last.info.len else 0)
  }

  lemma {:induction false} PlotBytesAppend(a: seq<Event>, b: seq<Event>, i: nat)
    ensures PlotBytes(a + b, i) == PlotBytes(a, i) + PlotBytes(b, i)
    decreases |b|
  {
    if b == [] {
      assert a + b == a;
    } else {
      var b' := b[..|b| - 1];
      assert (a + b)[..|a + b| - 1] == a + b';
      PlotBytesAppend(a, b', i);
    }
  }

  /** Every buffer of the pool from `from` on has `capacity` bytes, and reads, sends and is not interrupted. */
  predicate Smooth(buffers: seq<Delivery>, from: nat, capacity: nat) {
    forall j :: from <= j < |buffers| ==>
      buffers[j].capacity == capacity && !buffers[j].readFails && !buffers[j].interrupted && !buffers[j].sendFails
  }

  /** A buffer that reads and sends hands on `c.0` bytes of plot `ip`, and ends its turn when `c.2`. */
  lemma HandOnRunBytes(ip: nat, last: bool, show: bool, account: U64, c: (nat, nat, bool), d: Delivery, r: Run)
    requires !d.interrupted && !d.sendFails
    ensures var out := HandOnRun(ip, last, show, account, false, c, d, r);
      && PlotBytes(out.events, ip) == PlotBytes(r.events, ip) + c.0
      && (c.2 ==> Served(out.events, ip))
  {
    var out := HandOnRun(ip, last, show, account, false, c, d, r);
    var n := r.nonces + c.0 / 64;
    var e := if show then r.elapsed + d.elapsedMs else r.elapsed;
    var sent := Sent(ip, BufferInfo(c.0, c.1, last && c.2, account), c.2);
    var tail: seq<Event> := [sent] + (if last && c.2 && show then [DriveFinished(n, e, Speed(n, e))] else []);
    assert out.events == r.events + tail;
    PlotBytesAppend(r.events, tail, ip);
    PlotBytesAppend([sent], tail[1..], ip);
    assert [sent] + tail[1..] == tail;
    assert PlotBytes([sent], ip) == c.0 by {
      assert [sent][..0] == [];
    }
    if tail[1..] != [] {
      assert tail[1..][..0] == [];
    }
    assert out.events[|r.events|] == sent;
  }

  /** Without direct I/O a read that succeeds is one step of a pass. */
  lemma ChunkIsPassStep(p: Plot, scoop: nat, offset: nat, d: Delivery)
    requires offset <= SCOOP_SIZE * p.meta.nonces && !p.useDirectIo && !d.readFails && d.capacity > 0
    ensures var c, step := Chunk(p, scoop, offset, d), ReadStep(offset, d.capacity, p.meta.nonces, false, 0);
      && c.0 == step.0 && c.2 == step.1
      && PassSteps(offset, d.capacity, p.meta.nonces)
         == (if step.1 then 1 else 1 + PassSteps(offset + step.0, d.capacity, p.meta.nonces))
      && PassBytes(offset, d.capacity, p.meta.nonces)
         == (if step.1 then step.0 else step.0 + PassBytes(offset + step.0, d.capacity, p.meta.nonces))
  {
  }

  /**
   * Without direct I/O and with enough smooth buffers of one size, a plot
   * is read from `offset` to the end of its scoop, one buffer per read of
   * `PassBytes`, and every byte of the rest of the scoop is handed on once.
   */
  lemma {:induction false} PlotRunReadsWholeScoop(p: Plot, ip: nat, last: bool, scoop: nat, buffers: seq<Delivery>,
                                                  show: bool, offset: nat, r: Run, capacity: nat)
    requires offset <= SCOOP_SIZE * p.meta.nonces && !p.useDirectIo && capacity > 0
    requires r.b + PassSteps(offset, capacity, p.meta.nonces) <= |buffers| && Smooth(buffers, r.b, capacity)
    ensures var out := PlotRun(p, ip, last, scoop, buffers, show, offset, r);
      && !out.stopped && !out.blocked && Served(out.events, ip)
      && out.b == r.b + PassSteps(offset, capacity, p.meta.nonces)
      && PlotBytes(out.events, ip) == PlotBytes(r.events, ip) + PassBytes(offset, capacity, p.meta.nonces)
    decreases SCOOP_SIZE * p.meta.nonces - offset
  {
    var d := buffers[r.b];
    PlotRunStep(p, ip, last, scoop, buffers, show, offset, r);
    var c := Chunk(p, scoop, offset, d);
    ChunkIsPassStep(p, scoop, offset, d);
    HandOnRunBytes(ip, last, show, p.meta.accountId, c, d, r);
    if !c.2 {
      var next := Deliver(p, ip, last, scoop, show, offset, d, r);
      PlotRunReadsWholeScoop(p, ip, last, scoop, buffers, show, offset + c.0, next, capacity);
    }
  }

  /** The plot's whole scoop from `offset` on is handed on, each byte once. */
  lemma PlotRunCoversScoop(p: Plot, ip: nat, last: bool, scoop: nat, buffers: seq<Delivery>,
                           show: bool, offset: nat, r: Run, capacity: nat)
    requires offset <= SCOOP_SIZE * p.meta.nonces && !p.useDirectIo && capacity > 0
    requires r.b + PassSteps(offset, capacity, p.meta.nonces) <= |buffers| && Smooth(buffers, r.b, capacity)
    ensures var out := PlotRun(p, ip, last, scoop, buffers, show, offset, r);
      offset + (PlotBytes(out.events, ip) - PlotBytes(r.events, ip)) == SCOOP_SIZE * p.meta.nonces
  {
    PlotRunReadsWholeScoop(p, ip, last, scoop, buffers, show, offset, r, capacity);
    PassReadsWholeScoop(offset, capacity, p.meta.nonces);
  }

  /** Under direct I/O a read that succeeds takes a pass's step, cut down to whole sectors at the end. */
  lemma ChunkIsDirectStep(p: Plot, scoop: nat, offset: nat, d: Delivery)
    requires offset <= SCOOP_SIZE * p.meta.nonces && p.useDirectIo && p.sectorSize > 0 && !d.readFails
    requires d.capacity > 0
    ensures var c := Chunk(p, scoop, offset, d);
      && c.2 == ReadStep(offset, d.capacity, p.meta.nonces, false, 0).1
      && (c.2 ==> SCOOP_SIZE * p.meta.nonces - (offset + c.0) < p.sectorSize)
      && (!c.2 ==> c.0 == d.capacity)
      && (!c.2 ==> PassSteps(offset, d.capacity, p.meta.nonces) == 1 + PassSteps(offset + c.0, d.capacity, p.meta.nonces))
      && (c.2 ==> PassSteps(offset, d.capacity, p.meta.nonces) == 1)
  {
  }

  /**
   * Under direct I/O, with enough smooth buffers of one size, a plot is
   * read to within one sector of the end of its scoop: the last read is cut
   * down to whole sectors, so the scoop's last partial sector is not read.
   */
  lemma {:induction false} PlotRunReadsScoopDirect(p: Plot, ip: nat, last: bool, scoop: nat, buffers: seq<Delivery>,
                                                   show: bool, offset: nat, r: Run, capacity: nat)
    requires offset <= SCOOP_SIZE * p.meta.nonces && p.useDirectIo && p.sectorSize > 0 && capacity > 0
    requires r.b + PassSteps(offset, capacity, p.meta.nonces) <= |buffers| && Smooth(buffers, r.b, capacity)
    ensures var out := PlotRun(p, ip, last, scoop, buffers, show, offset, r);
      && !out.stopped && !out.blocked && Served(out.events, ip)
      && out.b == r.b + PassSteps(offset, capacity, p.meta.nonces)
      && PlotBytes(r.events, ip) <= PlotBytes(out.events, ip)
      && offset + (PlotBytes(out.events, ip) - PlotBytes(r.events, ip)) <= SCOOP_SIZE * p.meta.nonces
      && SCOOP_SIZE * p.meta.nonces - (offset + (PlotBytes(out.events, ip) - PlotBytes(r.events, ip))) < p.sectorSize
    decreases SCOOP_SIZE * p.meta.nonces - offset
  {
    var d := buffers[r.b];
    PlotRunStep(p, ip, last, scoop, buffers, show, offset, r);
    var c := Chunk(p, scoop, offset, d);
    ChunkIsDirectStep(p, scoop, offset, d);
    HandOnRunBytes(ip, last, show, p.meta.accountId, c, d, r);
    if !c.2 {
      var next := Deliver(p, ip, last, scoop, show, offset, d, r);
      PlotRunReadsScoopDirect(p, ip, last, scoop, buffers, show, offset + c.0, next, capacity);
    }
  }
}
