/**
 * The log-line telemetry of the desktop front end (miner_ui.py): each line
 * the miner prints is matched, case-insensitively, against independent
 * keyword tests that bump counters, overwrite the current round or best
 * deadline, or append to a 20-line history of disk-health lines; the
 * metrics view bands the read error rate into HEALTHY / WARNING / CRITICAL.
 *
 * `Apply` is the specification of one line's effect on the metrics;
 * class `MinerUi` holds the same fields and its methods are proved to
 * perform exactly that update.
 */
module Ui {
  import opened Wrappers
  import opened Strings
  import opened Rates

  /** How many health lines the history keeps. */
  const HEALTH_HISTORY: nat := 20

  datatype Status = Healthy | Warning | Critical

  /** The contents of `metrics_data` that the log parser maintains. */
  datatype Metrics = Metrics(
    totalReads: nat,
    failedReads: nat,
    submissions: nat,
    networkErrors: nat,
    currentRound: string,
    bestDeadline: string,
    healthLines: seq<string>)

  /** The metrics before any line has been seen. */
  const INITIAL: Metrics := Metrics(0, 0, 0, 0, "N/A", "N/A", [])

  // ---------------------------------------------------------------------
  // Classification of one line

  /**
   * The value recorded for `key`: the first whitespace token of the text
   * between the first and the second exact-case occurrence of `key`, with
   * every ':' and ',' removed. None when `key` does not occur or that text
   * is blank (the source's swallowed IndexError).
   */
  function ValueAfter(line: string, key: string): (r: Option<string>)
    requires |key| > 0
    ensures r.Some? ==> Contains(line, key)
    ensures r.Some? ==> ':' !in r.value && ',' !in r.value
    ensures r.Some? ==> forall c :: c in r.value ==> !IsPySpace(c)
  {
    var parts := Split(line, key);
    SplitManyIffContains(line, key);
    if |parts| > 1 then
      match PyFirstToken(parts[1])
      case None => None
      case Some(t) =>
        var v := Without(Without(t, ':'), ',');
        assert forall c :: c in v ==> c in t;
        Some(v)
    else None
  }

  /**
   * The text between the first occurrence of `key` in `line` and the next
   * one, or the end of the line when there is no next one.
   */
  function PieceAfter(line: string, key: string, i: nat): (piece: string)
    requires i + |key| <= |line|
    ensures |piece| <= |line| - i - |key|
  {
    var rest := line[i + |key|..];
    match IndexOf(rest, key)
    case Some(k) => rest[..k]
    case None => rest
  }

  /**
   * The value for `key` is cut from the text between the first occurrence
   * of `key` and the next one (or the end of the line): its first
   * Python-whitespace token, without ':' and ','. There is none exactly
   * when `key` does not occur or that text is blank.
   */
  lemma ValueAfterFirstOccurrence(line: string, key: string)
    requires |key| > 0
    ensures IndexOf(line, key).Some? <==> Contains(line, key)
    ensures IndexOf(line, key).None? ==> ValueAfter(line, key) == None
    ensures IndexOf(line, key).Some? ==>
      var i := IndexOf(line, key).value;
      key <= line[i..] && forall j :: 0 <= j < i ==> !(key <= line[j..])
    ensures IndexOf(line, key).Some? ==>
      var piece := PieceAfter(line, key, IndexOf(line, key).value);
      && (ValueAfter(line, key).None? <==> forall j :: 0 <= j < |piece| ==> IsPySpace(piece[j]))
      && ValueAfter(line, key)
         == match PyFirstToken(piece) case None => None case Some(t) => Some(Without(Without(t, ':'), ','))
  {
    IndexOfSpec(line, key);
    SplitManyIffContains(line, key);
    match IndexOf(line, key)
    case None =>
    case Some(i) =>
      assert Contains(line, key) by {
        assert 0 <= i <= |line| - |key| && key <= line[i..];
      }
      ValueAfterAt(line, key, i);
  }

  /** The value is taken from the piece after the occurrence at `i`. */
  lemma ValueAfterAt(line: string, key: string, i: nat)
    requires |key| > 0 && IndexOf(line, key) == Some(i)
    ensures ValueAfter(line, key)
            == match PyFirstToken(PieceAfter(line, key, i))
               case None => None
               case Some(t) => Some(Without(Without(t, ':'), ','))
  {
    var rest := line[i + |key|..];
    SplitOnce(line, key);
    SplitFirstPiece(rest, key);
    assert Split(line, key)[1] == PieceAfter(line, key, i);
    assert Contains(line, key) by {
      IndexOfSpec(line, key);
      assert 0 <= i <= |line| - |key| && key <= line[i..];
    }
    ValueAfterSecondPiece(line, key);
  }

  /** Once `key` occurs, the value comes from the second piece of the split. */
  lemma ValueAfterSecondPiece(line: string, key: string)
    requires |key| > 0 && Contains(line, key)
    ensures |Split(line, key)| > 1
    ensures ValueAfter(line, key)
            == match PyFirstToken(Split(line, key)[1])
               case None => None
               case Some(t) => Some(Without(Without(t, ':'), ','))
  {
    SplitManyIffContains(line, key);
  }

  function RoundUpdate(line: string): Option<string> {
    var low := Lower(line);
    if Contains(low, "new mining round") || Contains(low, "height") then
      if Contains(low, "height") then ValueAfter(line, "height") else None
    else None
  }

  function DeadlineUpdate(line: string): Option<string> {
    var low := Lower(line);
    if Contains(low, "deadline") && Contains(low, "best") then ValueAfter(line, "deadline") else None
  }

  predicate IsSubmission(line: string) {
    var low := Lower(line);
    (Contains(low, "submitted") || Contains(low, "submission"))
    && (Contains(low, "success") || Contains(low, "accepted"))
  }

  predicate IsNetworkError(line: string) {
    var low := Lower(line);
    Contains(low, "error")
    && (Contains(low, "network") || Contains(low, "connection") || Contains(low, "timeout"))
  }

  predicate IsReadCompleted(line: string) {
    var low := Lower(line);
    Contains(low, "finished") && Contains(low, "speed")
  }

  predicate IsReadFailed(line: string) {
    var low := Lower(line);
    Contains(low, "failed") && (Contains(low, "read") || Contains(low, "disk") || Contains(low, "i/o"))
  }

  /**
   * The severity branch a health line falls into; None for lines that are
   * not kept. The glyphs are matched in the original line.
   */
  function HealthSeverity(line: string): Option<Status> {
    var low := Lower(line);
    if !Contains(low, "health") then None
    else if Contains(low, "healthy") || Contains(line, "\U{2713}") then Some(Healthy)
    else if Contains(low, "warning") || Contains(line, "\U{26A0}") then Some(Warning)
    else if Contains(low, "critical") || Contains(line, "\U{2717}") then Some(Critical)
    else None
  }

  // ---------------------------------------------------------------------
  // The health-line history

  /** The last HEALTH_HISTORY lines of `lines` (Python's `lines[-20:]` when longer). */
  function Window(lines: seq<string>): (r: seq<string>)
    ensures |r| == if |lines| > HEALTH_HISTORY then HEALTH_HISTORY else |lines|
    ensures r == lines[|lines| - |r|..]
  {
    if |lines| > HEALTH_HISTORY then lines[|lines| - HEALTH_HISTORY..] else lines
  }

  function PushHealthLine(history: seq<string>, line: string): seq<string> {
    Window(history + [line])
  }

  /** Trimming before appending changes nothing: only the most recent lines matter. */
  lemma WindowAbsorbs(a: seq<string>, x: string)
    ensures Window(Window(a) + [x]) == Window(a + [x])
  {
    if |a| > HEALTH_HISTORY {
      assert Window(a) + [x] == a[|a| - HEALTH_HISTORY..] + [x];
      assert (a[|a| - HEALTH_HISTORY..] + [x])[1..] == a[|a| - HEALTH_HISTORY + 1..] + [x];
      assert (a + [x])[|a| + 1 - HEALTH_HISTORY..] == a[|a| - HEALTH_HISTORY + 1..] + [x];
    }
  }

  // ---------------------------------------------------------------------
  // The effect of one line, and of a sequence of lines

  /** A counter after a line: one more when the line matched. */
  function Bump(count: nat, matched: bool): nat {
    if matched then count + 1 else count
  }

  /** A value field after a line: the extracted value if there is one. */
  function Overwrite(current: string, update: Option<string>): string {
    match update
    case Some(v) => v
    case None => current
  }

  /** The health history after a line: extended only by health lines. */
  function KeepHealth(history: seq<string>, line: string): seq<string> {
    if HealthSeverity(line).Some? then PushHealthLine(history, line) else history
  }

  function Apply(m: Metrics, line: string): Metrics {
    Metrics(
      Bump(m.totalReads, IsReadCompleted(line)),
      Bump(m.failedReads, IsReadFailed(line)),
      Bump(m.submissions, IsSubmission(line)),
      Bump(m.networkErrors, IsNetworkError(line)),
      Overwrite(m.currentRound, RoundUpdate(line)),
      Overwrite(m.bestDeadline, DeadlineUpdate(line)),
      KeepHealth(m.healthLines, line))
  }

  /** The lines processed in arrival order. */
  function ApplyAll(m: Metrics, lines: seq<string>): Metrics {
    if lines == [] then m else Apply(ApplyAll(m, lines[..|lines| - 1]), lines[|lines| - 1])
  }

  function CountWhere(lines: seq<string>, p: string -> bool): nat {
    if lines == [] then 0
    else CountWhere(lines[..|lines| - 1], p) + (if p(lines[|lines| - 1]) then 1 else 0)
  }

  function HealthLinesOf(lines: seq<string>): seq<string> {
    if lines == [] then []
    else
      var last := lines[|lines| - 1];
      HealthLinesOf(lines[..|lines| - 1]) + (if HealthSeverity(last).Some? then [last] else [])
  }

  /** The value written by the most recent line that yields one, else `default`. */
  function LastValue(lines: seq<string>, f: string -> Option<string>, default: string): string {
    if lines == [] then default
    else match f(lines[|lines| - 1])
      case Some(v) => v
      case None => LastValue(lines[..|lines| - 1], f, default)
  }

  // ---------------------------------------------------------------------
  // Properties of one line

  /**
   * Each counter moves by at most one, and exactly when its keyword test
   * holds; the tests are independent, so one line may move several.
   */
  lemma ApplyCounters(m: Metrics, line: string)
    ensures var r := Apply(m, line);
      && (r.submissions == m.submissions + 1 <==> IsSubmission(line))
      && (r.networkErrors == m.networkErrors + 1 <==> IsNetworkError(line))
      && (r.totalReads == m.totalReads + 1 <==> IsReadCompleted(line))
      && (r.failedReads == m.failedReads + 1 <==> IsReadFailed(line))
      && m.submissions <= r.submissions <= m.submissions + 1
      && m.networkErrors <= r.networkErrors <= m.networkErrors + 1
      && m.totalReads <= r.totalReads <= m.totalReads + 1
      && m.failedReads <= r.failedReads <= m.failedReads + 1
  {
  }

  /**
   * The round is detected in the lower-cased line but cut from the
   * original one: it changes only when the exact-case key occurs too, and
   * the stored value carries no ':' ',' or whitespace.
   */
  lemma RoundNeedsExactKey(m: Metrics, line: string)
    ensures Apply(m, line).currentRound != m.currentRound
      ==> Contains(Lower(line), "height") && Contains(line, "height")
    ensures !Contains(line, "height") ==> Apply(m, line).currentRound == m.currentRound
    ensures RoundUpdate(line).Some? ==>
      var v := RoundUpdate(line).value;
      ':' !in v && ',' !in v && forall c :: c in v ==> !IsPySpace(c)
  {
  }

  /** The best deadline changes only on lines mentioning both "deadline" and "best". */
  lemma DeadlineNeedsBothKeys(m: Metrics, line: string)
    ensures Apply(m, line).bestDeadline != m.bestDeadline
      ==> Contains(Lower(line), "deadline") && Contains(Lower(line), "best") && Contains(line, "deadline")
  {
  }

  /** A line enters the history only with a severity keyword or glyph; the history stays bounded. */
  lemma HealthLineKept(m: Metrics, line: string)
    requires |m.healthLines| <= HEALTH_HISTORY
    ensures var r := Apply(m, line);
      && |r.healthLines| <= HEALTH_HISTORY
      && (r.healthLines != m.healthLines ==> Contains(Lower(line), "health"))
      && (HealthSeverity(line).Some? ==> r.healthLines[|r.healthLines| - 1] == line)
      && (HealthSeverity(line).None? ==> r.healthLines == m.healthLines)
  {
  }

  // ---------------------------------------------------------------------
  // Properties of a sequence of lines

  /** Every counter equals its start value plus the number of lines its test accepted. */
  lemma {:induction false} ApplyAllCounters(m: Metrics, lines: seq<string>)
    ensures var r := ApplyAll(m, lines);
      && r.submissions == m.submissions + CountWhere(lines, IsSubmission)
      && r.networkErrors == m.networkErrors + CountWhere(lines, IsNetworkError)
      && r.totalReads == m.totalReads + CountWhere(lines, IsReadCompleted)
      && r.failedReads == m.failedReads + CountWhere(lines, IsReadFailed)
  {
    if lines != [] {
      ApplyAllCounters(m, lines[..|lines| - 1]);
    }
  }

  /** Round and best deadline are last-write-wins over the lines that yield a value. */
  lemma {:induction false} ApplyAllLastWriteWins(m: Metrics, lines: seq<string>)
    ensures ApplyAll(m, lines).currentRound == LastValue(lines, RoundUpdate, m.currentRound)
    ensures ApplyAll(m, lines).bestDeadline == LastValue(lines, DeadlineUpdate, m.bestDeadline)
  {
    if lines != [] {
      ApplyAllLastWriteWins(m, lines[..|lines| - 1]);
    }
  }

  lemma ApplyHealthLines(m: Metrics, line: string)
    ensures Apply(m, line).healthLines
      == if HealthSeverity(line).Some? then PushHealthLine(m.healthLines, line) else m.healthLines
  {
  }

  /**
   * The history holds the most recent health lines in arrival order, at
   * most HEALTH_HISTORY of them, the oldest dropped first.
   */
  lemma {:induction false} ApplyAllHealthHistory(m: Metrics, lines: seq<string>)
    requires |m.healthLines| <= HEALTH_HISTORY
    ensures ApplyAll(m, lines).healthLines == Window(m.healthLines + HealthLinesOf(lines))
    ensures |ApplyAll(m, lines).healthLines| <= HEALTH_HISTORY
  {
    if lines == [] {
      assert m.healthLines + HealthLinesOf(lines) == m.healthLines;
    } else {
      var init, last := lines[..|lines| - 1], lines[|lines| - 1];
      var prev := ApplyAll(m, init);
      var before := m.healthLines + HealthLinesOf(init);
      assert ApplyAll(m, lines).healthLines == KeepHealth(prev.healthLines, last);
      ApplyAllHealthHistory(m, init);
      assert prev.healthLines == Window(before);
      if HealthSeverity(last).Some? {
        assert HealthLinesOf(lines) == HealthLinesOf(init) + [last];
        WindowAbsorbs(before, last);
        assert m.healthLines + HealthLinesOf(lines) == before + [last];
      } else {
        assert HealthLinesOf(lines) == HealthLinesOf(init);
      }
    }
  }

  // ---------------------------------------------------------------------
  // Error-rate banding of the metrics view

  /**
   * The overall health shown once reads exist: CRITICAL above a 5% error
   * rate, WARNING above 1%, HEALTHY otherwise; nothing before any read.
   */
  function ErrorRateBand(totalReads: nat, failedReads: nat): (r: Option<Status>)
    ensures r.None? <==> totalReads == 0
    ensures totalReads > 0 ==>
      var rate := Percent(failedReads, totalReads);
      && (r == Some(Critical) <==> rate > 5.0)
      && (r == Some(Warning) <==> 1.0 < rate <= 5.0)
      && (r == Some(Healthy) <==> rate <= 1.0)
  {
    if totalReads == 0 then None
    else
      PercentCompare(failedReads, totalReads, 5);
      PercentCompare(failedReads, totalReads, 1);
      if failedReads * 100 > 5 * totalReads then Some(Critical)
      else if failedReads * 100 > totalReads then Some(Warning)
      else Some(Healthy)
  }

  // ---------------------------------------------------------------------
  // The front end's metrics state

  class MinerUi {
    var totalReads: nat
    var failedReads: nat
    var submissions: nat
    var networkErrors: nat
    var currentRound: string
    var bestDeadline: string
    var healthLines: seq<string>

    function Snapshot(): Metrics
      reads this
    {
      Metrics(totalReads, failedReads, submissions, networkErrors, currentRound, bestDeadline, healthLines)
    }

    ghost predicate Valid()
      reads this
    {
      |healthLines| <= HEALTH_HISTORY
    }

    constructor ()
      ensures Valid() && Snapshot() == INITIAL
    {
      totalReads, failedReads, submissions, networkErrors := 0, 0, 0, 0;
      currentRound, bestDeadline := "N/A", "N/A";
      healthLines := [];
    }

    /** Appends a health line, keeping only the most recent HEALTH_HISTORY. */
    method ExtractDiskHealth(line: string)
      modifies this`healthLines
      ensures Valid()
      ensures healthLines == PushHealthLine(old(healthLines), line)
    {
      healthLines := healthLines + [line];
      if |healthLines| > HEALTH_HISTORY {
        healthLines := healthLines[|healthLines| - HEALTH_HISTORY..];
      }
    }

    /** Folds one captured output line into the metrics. */
    method ParseLogForMetrics(line: string)
      requires Valid()
      modifies this
      ensures Valid()
      ensures Snapshot() == Apply(old(Snapshot()), line)
    {
      var low := Lower(line);
      var round := ScanRound(line, low, currentRound);
      var deadline := ScanDeadline(line, low, bestDeadline);
      var s := ScanSubmissions(line, low, submissions);
      var n := ScanNetworkErrors(line, low, networkErrors);
      var t, f := ScanReads(line, low, totalReads, failedReads);
      var h := ScanHealth(line, low, healthLines);
      currentRound, bestDeadline := round, deadline;
      submissions, networkErrors, totalReads, failedReads := s, n, t, f;
      healthLines := h;
    }

    /** The round-number section of the log parser. */
    static method ScanRound(line: string, low: string, current: string) returns (round: string)
      requires low == Lower(line)
      ensures round == Overwrite(current, RoundUpdate(line))
    {
      round := current;
      if Contains(low, "new mining round") || Contains(low, "height") {
        if Contains(low, "height") {
          var parts := Split(line, "height");
          if |parts| > 1 {
            var token := PyFirstToken(parts[1]);
            if token.Some? {
              round := Without(Without(token.value, ':'), ',');
            }
          }
        }
      }
    }

    /** The best-deadline section of the log parser. */
    static method ScanDeadline(line: string, low: string, current: string) returns (deadline: string)
      requires low == Lower(line)
      ensures deadline == Overwrite(current, DeadlineUpdate(line))
    {
      deadline := current;
      if Contains(low, "deadline") && Contains(low, "best") {
        var parts := Split(line, "deadline");
        if |parts| > 1 {
          var token := PyFirstToken(parts[1]);
          if token.Some? {
            deadline := Without(Without(token.value, ':'), ',');
          }
        }
      }
    }

    /** The submission counter of the log parser. */
    static method ScanSubmissions(line: string, low: string, count: nat) returns (r: nat)
      requires low == Lower(line)
      ensures r == Bump(count, IsSubmission(line))
    {
      r := count;
      if Contains(low, "submitted") || Contains(low, "submission") {
        if Contains(low, "success") || Contains(low, "accepted") {
          r := r + 1;
        }
      }
    }

    /** The network-error counter of the log parser. */
    static method ScanNetworkErrors(line: string, low: string, count: nat) returns (r: nat)
      requires low == Lower(line)
      ensures r == Bump(count, IsNetworkError(line))
    {
      r := count;
      if Contains(low, "error")
        && (Contains(low, "network") || Contains(low, "connection") || Contains(low, "timeout"))
      {
        r := r + 1;
      }
    }

    /** The completed- and failed-read counters of the log parser. */
    static method ScanReads(line: string, low: string, total: nat, failed: nat) returns (total': nat, failed': nat)
      requires low == Lower(line)
      ensures total' == Bump(total, IsReadCompleted(line))
      ensures failed' == Bump(failed, IsReadFailed(line))
    {
      total', failed' := total, failed;
      if Contains(low, "finished") && Contains(low, "speed") {
        total' := total' + 1;
      }
      if Contains(low, "failed") && (Contains(low, "read") || Contains(low, "disk") || Contains(low, "i/o")) {
        failed' := failed' + 1;
      }
    }

    /** The disk-health section of the log parser. */
    static method ScanHealth(line: string, low: string, history: seq<string>) returns (h: seq<string>)
      requires low == Lower(line)
      ensures h == KeepHealth(history, line)
    {
      h := history;
      if Contains(low, "health") {
        if Contains(low, "healthy") || Contains(line, "\U{2713}") {
          h := PushHealthLine(h, line);
        } else if Contains(low, "warning") || Contains(line, "\U{26A0}") {
          h := PushHealthLine(h, line);
        } else if Contains(low, "critical") || Contains(line, "\U{2717}") {
          h := PushHealthLine(h, line);
        }
      }
    }

    /** Drains the queue of captured lines, parsing each in arrival order. */
    method UpdateLogs(queue: seq<string>)
      requires Valid()
      modifies this
      ensures Valid()
      ensures Snapshot() == ApplyAll(old(Snapshot()), queue)
    {
      var i := 0;
      while i < |queue|
        invariant 0 <= i <= |queue|
        invariant Valid()
        invariant Snapshot() == ApplyAll(old(Snapshot()), queue[..i])
      {
        ParseLogForMetrics(queue[i]);
        assert queue[..i + 1][..i] == queue[..i];
        i := i + 1;
      }
      assert queue[..i] == queue;
    }

    /** The overall-health band of the metrics view. */
    function OverallHealth(): Option<Status>
      reads this
    {
      ErrorRateBand(totalReads, failedReads)
    }
  }
}
