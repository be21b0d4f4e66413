/**
 * What `_simulate_pipeline` does to one run, stated as functions of the run,
 * the random draws of its steps and the clock readings it takes.  The clock
 * is the sequence `ticks` of its readings in the order the source takes them:
 *   ticks[0]           `start = time.time()`
 *   ticks[1]           the "run started" line
 *   ticks[3i+2]        step i's "started" line
 *   ticks[3i+3]        step i's output line
 *   ticks[3i+4]        step i's "OK" line, or, when step i fails, `finished_at`
 *   ticks[3i+5..3i+7]  when step i fails: the end time of `duration_s`, the "FAILED" line, the "finished" line
 *   ticks[3n+2..3n+4]  after all n steps passed: `finished_at`, the end time of `duration_s`, the "finished" line
 */
module Engine {
  import opened Wrappers
  import opened Simulator
  import opened Runs

  /** The number of clock readings a run of `n` steps takes on its longest path. */
  function TicksNeeded(n: nat): nat
  {
    3 * n + 5
  }

  /** The injected clock never goes backwards. */
  predicate NonDecreasing(ticks: seq<int>)
  {
    forall i, j :: 0 <= i <= j < |ticks| ==> ticks[i] <= ticks[j]
  }

  /** One draw per step and enough clock readings for the longest path. */
  predicate WellFormed(run: Run, draws: seq<Draw>, ticks: seq<int>)
  {
    |draws| == |run.steps| && |ticks| >= TicksNeeded(|run.steps|)
  }

  /** The first step at or after `from` whose failure draw fires, or the number of steps when none does. */
  function FirstFailure(draws: seq<Draw>, from: nat): (k: nat)
    requires from <= |draws|
    ensures from <= k <= |draws|
    ensures forall j :: from <= j < k ==> !draws[j].fails
    ensures k < |draws| ==> draws[k].fails
    decreases |draws| - from
  {
    if from == |draws| || draws[from].fails then from
    else FirstFailure(draws, from + 1)
  }

  /** The "started" and output lines of step `i`. */
  function StepLines(steps: seq<string>, draws: seq<Draw>, ticks: seq<int>, i: nat): seq<LogLine>
    requires |draws| == |steps| && i < |steps| && 3 * i + 4 <= |ticks|
  {
    [LogLine(ticks[3 * i + 2], StepStarted(steps[i])),
     LogLine(ticks[3 * i + 3], Output(steps[i], draws[i].count))]
  }

  /** The lines of step `i` when it passes: "started", output and "OK". */
  function PassedStep(steps: seq<string>, draws: seq<Draw>, ticks: seq<int>, i: nat): seq<LogLine>
    requires |draws| == |steps| && i < |steps| && 3 * i + 5 <= |ticks|
  {
    StepLines(steps, draws, ticks, i) + [LogLine(ticks[3 * i + 4], StepOk(steps[i]))]
  }

  /** The log lines of the first `m` steps when all of them pass: three per step. */
  function PassedLines(steps: seq<string>, draws: seq<Draw>, ticks: seq<int>, m: nat): (lines: seq<LogLine>)
    requires |draws| == |steps| && m <= |steps| && 3 * m + 2 <= |ticks|
    ensures |lines| == 3 * m
    decreases m
  {
    if m == 0 then []
    else PassedLines(steps, draws, ticks, m - 1) + PassedStep(steps, draws, ticks, m - 1)
  }

  /** The run after its step `k` failed: ended, with its end time and duration, and no current step. */
  function FailedAt(run: Run, k: nat, ticks: seq<int>): Run
    requires 3 * k + 6 <= |ticks|
  {
    run.(status := Failed, finishedAt := Some(ticks[3 * k + 4]),
         durationS := Some(ticks[3 * k + 5] - ticks[0]), currentStep := None)
  }

  /** The run after all its steps passed: ended, with its end time and duration, and no current step. */
  function Succeeded(run: Run, ticks: seq<int>): Run
    requires 3 * |run.steps| + 4 <= |ticks|
  {
    var n := |run.steps|;
    run.(status := Success, finishedAt := Some(ticks[3 * n + 2]),
         durationS := Some(ticks[3 * n + 3] - ticks[0]), currentStep := None)
  }

  /** The run as `_simulate_pipeline` leaves it (and as it writes it to the snapshot list and to history). */
  function FinalRun(run: Run, draws: seq<Draw>, ticks: seq<int>): Run
    requires WellFormed(run, draws, ticks)
  {
    var k := FirstFailure(draws, 0);
    if k < |run.steps| then FailedAt(run, k, ticks) else Succeeded(run, ticks)
  }

  /** The lines after the passed steps: the failing step's lines, or the success line. */
  function TailLines(run: Run, draws: seq<Draw>, ticks: seq<int>): seq<LogLine>
    requires WellFormed(run, draws, ticks)
  {
    var steps, n, k := run.steps, |run.steps|, FirstFailure(draws, 0);
    if k < n then
      StepLines(steps, draws, ticks, k)
      + [LogLine(ticks[3 * k + 6], StepFailed(steps[k])), LogLine(ticks[3 * k + 7], RunFinished(run.id, Failed))]
    else
      [LogLine(ticks[3 * n + 4], RunFinished(run.id, Success))]
  }

  /** Every line `_simulate_pipeline` appends to the run's log, in order. */
  function Trace(run: Run, draws: seq<Draw>, ticks: seq<int>): seq<LogLine>
    requires WellFormed(run, draws, ticks)
  {
    [LogLine(ticks[1], RunStarted(run.id, run.job))]
    + PassedLines(run.steps, draws, ticks, FirstFailure(draws, 0))
    + TailLines(run, draws, ticks)
  }

  /** The snapshots taken at the start of the first `m` steps: the run with each step as `current_step`. */
  function StepSnapshots(run: Run, m: nat): seq<Run>
    requires m <= |run.steps|
    decreases m
  {
    if m == 0 then [] else StepSnapshots(run, m - 1) + [run.(currentStep := Some(run.steps[m - 1]))]
  }

  /** The snapshots saved after the passed steps: the failing step's, if any, then the terminal run. */
  function TailSnapshots(run: Run, draws: seq<Draw>, ticks: seq<int>): seq<Run>
    requires WellFormed(run, draws, ticks)
  {
    var k := FirstFailure(draws, 0);
    (if k < |run.steps| then [run.(currentStep := Some(run.steps[k]))] else []) + [FinalRun(run, draws, ticks)]
  }

  /** Every snapshot `_simulate_pipeline` saves, in order: one per step it starts, then the terminal run. */
  function SavedSnapshots(run: Run, draws: seq<Draw>, ticks: seq<int>): seq<Run>
    requires WellFormed(run, draws, ticks)
  {
    StepSnapshots(run, FirstFailure(draws, 0)) + TailSnapshots(run, draws, ticks)
  }

  /**
   * The run ends exactly once, in the terminal state: `failed` precisely when
   * some step's draw fires, with its end time not before the clock reading
   * `start` (ticks[0]) and a non-negative duration; id, job, steps and
   * `started_at` are kept.
   */
  lemma FinalRunOutcome(run: Run, draws: seq<Draw>, ticks: seq<int>)
    requires WellFormed(run, draws, ticks) && NonDecreasing(ticks)
    ensures var f := FinalRun(run, draws, ticks);
      && Terminal(f)
      && (f.status == Failed <==> exists i :: 0 <= i < |run.steps| && draws[i].fails)
      && (f.status == Success <==> forall i :: 0 <= i < |run.steps| ==> !draws[i].fails)
      && f.finishedAt.value >= ticks[0]
      && f.durationS.value >= 0
      && f.id == run.id && f.job == run.job && f.steps == run.steps && f.startedAt == run.startedAt
  {
    var k := FirstFailure(draws, 0);
    if k < |run.steps| {
      assert draws[k].fails;
    }
  }

  /** The kinds of step lines a log holds. */
  datatype Mark = Began | Produced | Passed | Broke

  /** The step named by a line of the given kind, if this line is one. */
  function MarkedStep(line: LogLine, m: Mark): Option<string>
  {
    var e := line.event;
    match m
    case Began => if e.StepStarted? then Some(e.step) else None
    case Produced => if e.Output? then Some(e.step) else None
    case Passed => if e.StepOk? then Some(e.step) else None
    case Broke => if e.StepFailed? then Some(e.step) else None
  }

  /** The step line `line` contributes to `Marked` for kind `m`. */
  function MarkOf(line: LogLine, m: Mark): seq<string>
  {
    if MarkedStep(line, m).Some? then [MarkedStep(line, m).value] else []
  }

  /** The steps the lines of kind `m` name, in log order. */
  function Marked(lines: seq<LogLine>, m: Mark): seq<string>
    decreases |lines|
  {
    if lines == [] then [] else Marked(lines[..|lines| - 1], m) + MarkOf(lines[|lines| - 1], m)
  }

  lemma MarkedSnoc(a: seq<LogLine>, x: LogLine, m: Mark)
    ensures Marked(a + [x], m) == Marked(a, m) + MarkOf(x, m)
  {
    assert (a + [x])[..|a|] == a;
  }

  lemma {:induction false} MarkedAppend(a: seq<LogLine>, b: seq<LogLine>, m: Mark)
    ensures Marked(a + b, m) == Marked(a, m) + Marked(b, m)
    decreases |b|
  {
    if b == [] {
      assert a + b == a;
    } else {
      var b' := b[..|b| - 1];
      assert (a + b)[..|a + b| - 1] == a + b';
      MarkedAppend(a, b', m);
    }
  }

  /** The three lines of a passing step add its name to the started, the producing and the passed steps. */
  lemma MarkedPassedStep(prev: seq<LogLine>, started: LogLine, output: LogLine, ok: LogLine, s: string, mk: Mark)
    requires started.event == StepStarted(s) && output.event.Output? && output.event.step == s && ok.event == StepOk(s)
    ensures Marked(prev + [started, output, ok], mk) == Marked(prev, mk) + (if mk == Broke then [] else [s])
  {
    var a1 := prev + [started];
    var a2 := a1 + [output];
    assert prev + [started, output, ok] == a2 + [ok];
    MarkedSnoc(prev, started, mk);
    MarkedSnoc(a1, output, mk);
    MarkedSnoc(a2, ok, mk);
  }

  /** While all steps pass, each one is started, reports its output and is logged OK, in step order, and none is logged as failed. */
  lemma {:induction false} PassedLinesMarked(steps: seq<string>, draws: seq<Draw>, ticks: seq<int>, m: nat, mk: Mark)
    requires |draws| == |steps| && m <= |steps| && 3 * m + 2 <= |ticks|
    ensures Marked(PassedLines(steps, draws, ticks, m), mk) == if mk == Broke then [] else steps[..m]
    decreases m
  {
    if m > 0 {
      var s := steps[m - 1];
      var prev := PassedLines(steps, draws, ticks, m - 1);
      var started := LogLine(ticks[3 * m - 1], StepStarted(s));
      var output := LogLine(ticks[3 * m], Output(s, draws[m - 1].count));
      var ok := LogLine(ticks[3 * m + 1], StepOk(s));
      assert PassedLines(steps, draws, ticks, m) == prev + [started, output, ok];
      PassedLinesMarked(steps, draws, ticks, m - 1, mk);
      MarkedPassedStep(prev, started, output, ok, s, mk);
      if mk != Broke {
        assert steps[..m] == steps[..m - 1] + [s];
      }
    }
  }

  /** The lines of passing steps neither start nor finish the run. */
  lemma {:induction false} PassedLinesInner(steps: seq<string>, draws: seq<Draw>, ticks: seq<int>, m: nat)
    requires |draws| == |steps| && m <= |steps| && 3 * m + 2 <= |ticks|
    ensures forall line :: line in PassedLines(steps, draws, ticks, m) ==> !line.event.RunFinished? && !line.event.RunStarted?
    decreases m
  {
    if m > 0 {
      PassedLinesInner(steps, draws, ticks, m - 1);
      var prev := PassedLines(steps, draws, ticks, m - 1);
      var lines := PassedLines(steps, draws, ticks, m);
      var step := StepLines(steps, draws, ticks, m - 1);
      assert lines == prev + step + [LogLine(ticks[3 * m + 1], StepOk(steps[m - 1]))];

    }
  }

  /** Lines 3i, 3i+1 and 3i+2 of the passed steps' lines are step i's "started", output and "OK" lines. */
  lemma {:induction false} PassedLinesAt(steps: seq<string>, draws: seq<Draw>, ticks: seq<int>, m: nat, i: nat)
    requires |draws| == |steps| && i < m <= |steps| && 3 * m + 2 <= |ticks|
    ensures PassedLines(steps, draws, ticks, m)[3 * i .. 3 * i + 3]
      == [LogLine(ticks[3 * i + 2], StepStarted(steps[i])),
          LogLine(ticks[3 * i + 3], Output(steps[i], draws[i].count)),
          LogLine(ticks[3 * i + 4], StepOk(steps[i]))]
    decreases m
  {
    var prev := PassedLines(steps, draws, ticks, m - 1);
    var lines := PassedLines(steps, draws, ticks, m);
    assert lines == prev + PassedStep(steps, draws, ticks, m - 1);
    if i < m - 1 {
      PassedLinesAt(steps, draws, ticks, m - 1, i);
      assert lines[3 * i .. 3 * i + 3] == prev[3 * i .. 3 * i + 3];
    } else {
      assert lines[3 * i .. 3 * i + 3] == PassedStep(steps, draws, ticks, m - 1);
    }
  }

  /**
   * A run's log, line by line: the "started" line; for each step before the
   * first failing one its "started", output and "OK" lines; then either the
   * failing step's "started", output and "FAILED" lines and the "failed"
   * finish, or the "success" finish.  Each line carries the clock reading
   * taken for it.
   */
  lemma TraceLayout(run: Run, draws: seq<Draw>, ticks: seq<int>)
    requires WellFormed(run, draws, ticks)
    ensures var t, steps, n, k := Trace(run, draws, ticks), run.steps, |run.steps|, FirstFailure(draws, 0);
      && |t| == (if k < n then 3 * k + 5 else 3 * k + 2)
      && t[0] == LogLine(ticks[1], RunStarted(run.id, run.job))
      && (forall i :: 0 <= i < k ==>
            t[3 * i + 1 .. 3 * i + 4]
            == [LogLine(ticks[3 * i + 2], StepStarted(steps[i])),
                LogLine(ticks[3 * i + 3], Output(steps[i], draws[i].count)),
                LogLine(ticks[3 * i + 4], StepOk(steps[i]))])
      && (k < n ==>
            t[3 * k + 1 ..]
            == [LogLine(ticks[3 * k + 2], StepStarted(steps[k])),
                LogLine(ticks[3 * k + 3], Output(steps[k], draws[k].count)),
                LogLine(ticks[3 * k + 6], StepFailed(steps[k])),
                LogLine(ticks[3 * k + 7], RunFinished(run.id, Failed))])
      && (k == n ==> t[3 * k + 1] == LogLine(ticks[3 * n + 4], RunFinished(run.id, Success)))
  {
    var steps, k := run.steps, FirstFailure(draws, 0);
    var head := [LogLine(ticks[1], RunStarted(run.id, run.job))];
    var passed := PassedLines(steps, draws, ticks, k);
    var tail := TailLines(run, draws, ticks);
    var t := Trace(run, draws, ticks);
    assert t == head + passed + tail;
    forall i | 0 <= i < k
      ensures t[3 * i + 1 .. 3 * i + 4] == passed[3 * i .. 3 * i + 3]
    {
    }
    forall i | 0 <= i < k
      ensures passed[3 * i .. 3 * i + 3]
        == [LogLine(ticks[3 * i + 2], StepStarted(steps[i])),
            LogLine(ticks[3 * i + 3], Output(steps[i], draws[i].count)),
            LogLine(ticks[3 * i + 4], StepOk(steps[i]))]
    {
      PassedLinesAt(steps, draws, ticks, k, i);
    }
    assert t[3 * k + 1 ..] == tail;
  }

  /** A line that names no step in front of a log adds nothing to `Marked`. */
  lemma MarkedUnmarkedHead(head: LogLine, rest: seq<LogLine>, mk: Mark)
    requires MarkedStep(head, mk).None?
    ensures Marked([head] + rest, mk) == Marked(rest, mk)
  {
    MarkedAppend([head], rest, mk);
    MarkedSnoc([], head, mk);
    assert [] + [head] == [head];
  }

  /** The four lines of a failing step add its name to the started, the producing and the failed steps. */
  lemma MarkedFailingStep(prev: seq<LogLine>, started: LogLine, output: LogLine, failed: LogLine, finished: LogLine, s: string, mk: Mark)
    requires started.event == StepStarted(s) && output.event.Output? && output.event.step == s && failed.event == StepFailed(s)
    requires finished.event.RunFinished?
    ensures Marked(prev + [started, output, failed, finished], mk) == Marked(prev, mk) + (if mk == Passed then [] else [s])
  {
    var a1 := prev + [started];
    var a2 := a1 + [output];
    var a3 := a2 + [failed];
    assert prev + [started, output, failed, finished] == a3 + [finished];
    MarkedSnoc(prev, started, mk);
    MarkedSnoc(a1, output, mk);
    MarkedSnoc(a2, failed, mk);
    MarkedSnoc(a3, finished, mk);
  }

  /** After the passed steps' lines, the four lines of failing step `k` complete the marks of a failed run. */
  lemma FailingMarks(front: seq<LogLine>, tail: seq<LogLine>, steps: seq<string>, k: nat, mk: Mark)
    requires k < |steps| && |tail| == 4
    requires tail[0].event == StepStarted(steps[k]) && tail[1].event.Output? && tail[1].event.step == steps[k]
    requires tail[2].event == StepFailed(steps[k]) && tail[3].event.RunFinished?
    requires Marked(front, mk) == if mk == Broke then [] else steps[..k]
    ensures Marked(front + tail, mk) ==
        match mk
        case Began => steps[..k + 1]
        case Produced => steps[..k + 1]
        case Passed => steps[..k]
        case Broke => [steps[k]]
  {
    assert tail == [tail[0], tail[1], tail[2], tail[3]];
    MarkedFailingStep(front, tail[0], tail[1], tail[2], tail[3], steps[k], mk);
    assert steps[..k + 1] == steps[..k] + [steps[k]];
  }

  /** The steps the log of a run with a failing step `k` names with lines of kind `mk`. */
  lemma TraceMarkedFailing(run: Run, draws: seq<Draw>, ticks: seq<int>, mk: Mark)
    requires WellFormed(run, draws, ticks)
    requires FirstFailure(draws, 0) < |run.steps|
    ensures var steps, k := run.steps, FirstFailure(draws, 0);
      Marked(Trace(run, draws, ticks), mk) ==
        match mk
        case Began => steps[..k + 1]
        case Produced => steps[..k + 1]
        case Passed => steps[..k]
        case Broke => [steps[k]]
  {
    var steps, k := run.steps, FirstFailure(draws, 0);
    var head := LogLine(ticks[1], RunStarted(run.id, run.job));
    var passed := PassedLines(steps, draws, ticks, k);
    var tail := TailLines(run, draws, ticks);
    assert Trace(run, draws, ticks) == ([head] + passed) + tail;
    assert Marked([head] + passed, mk) == if mk == Broke then [] else steps[..k] by {
      PassedLinesMarked(steps, draws, ticks, k, mk);
      MarkedUnmarkedHead(head, passed, mk);
    }
    FailingMarks([head] + passed, tail, steps, k, mk);
  }

  /** The steps the log of a run without a failing step names with lines of kind `mk`. */
  lemma TraceMarkedPassing(run: Run, draws: seq<Draw>, ticks: seq<int>, mk: Mark)
    requires WellFormed(run, draws, ticks)
    requires FirstFailure(draws, 0) == |run.steps|
    ensures Marked(Trace(run, draws, ticks), mk) == if mk == Broke then [] else run.steps
  {
    var steps, k := run.steps, FirstFailure(draws, 0);
    var head := LogLine(ticks[1], RunStarted(run.id, run.job));
    var passed := PassedLines(steps, draws, ticks, k);
    var finished := LogLine(ticks[3 * k + 4], RunFinished(run.id, Success));
    var front := [head] + passed;
    assert Trace(run, draws, ticks) == front + [finished] by {
      assert TailLines(run, draws, ticks) == [finished];
    }
    assert Marked(front, mk) == if mk == Broke then [] else steps by {
      PassedLinesMarked(steps, draws, ticks, k, mk);
      MarkedUnmarkedHead(head, passed, mk);
      assert k == |steps|;
      assert steps[..|steps|] == steps;
    }
    assert Marked(front + [finished], mk) == Marked(front, mk) by {
      MarkedSnoc(front, finished, mk);
      assert MarkOf(finished, mk) == [];
    }
  }

  /**
   * A run's log opens with the "run started" line and closes with exactly one
   * "finished" line, which carries the run's final status.
   */
  lemma TraceBoundaries(run: Run, draws: seq<Draw>, ticks: seq<int>)
    requires WellFormed(run, draws, ticks)
    ensures var t := Trace(run, draws, ticks);
      && |t| >= 2
      && t[0].event == RunStarted(run.id, run.job)
      && t[|t| - 1].event == RunFinished(run.id, FinalRun(run, draws, ticks).status)
      && forall i :: 0 <= i < |t| - 1 ==> !t[i].event.RunFinished?
  {
    var k := FirstFailure(draws, 0);
    var passed := PassedLines(run.steps, draws, ticks, k);
    var tail := TailLines(run, draws, ticks);
    var t := Trace(run, draws, ticks);
    assert t[|t| - 1] == tail[|tail| - 1];
    assert tail[|tail| - 1].event == RunFinished(run.id, FinalRun(run, draws, ticks).status);
    PassedLinesInner(run.steps, draws, ticks, k);
    assert forall j :: 0 <= j < |tail| - 1 ==> !tail[j].event.RunFinished? by {
      if k < |run.steps| {
        var failed := LogLine(ticks[3 * k + 6], StepFailed(run.steps[k]));
        var finished := LogLine(ticks[3 * k + 7], RunFinished(run.id, Failed));
        assert tail == StepLines(run.steps, draws, ticks, k) + [failed, finished];
        assert |tail| == 4 && tail[2] == failed;
      } else {
        assert |tail| == 1;
      }
    }
    OnlyLastFinishes(LogLine(ticks[1], RunStarted(run.id, run.job)), passed, tail);
  }

  /** A log whose only "finished" line can be the last of `tail` has no "finished" line before its end. */
  lemma OnlyLastFinishes(head: LogLine, passed: seq<LogLine>, tail: seq<LogLine>)
    requires !head.event.RunFinished? && tail != []
    requires forall line :: line in passed ==> !line.event.RunFinished?
    requires forall j :: 0 <= j < |tail| - 1 ==> !tail[j].event.RunFinished?
    ensures var t := [head] + passed + tail;
      forall i :: 0 <= i < |t| - 1 ==> !t[i].event.RunFinished?
  {
    var t := [head] + passed + tail;
    forall i | 0 <= i < |t| - 1 ensures !t[i].event.RunFinished? {
      if 0 < i < 1 + |passed| {
        assert t[i] == passed[i - 1];
        assert t[i] in passed;
      } else if i >= 1 + |passed| {
        assert t[i] == tail[i - 1 - |passed|];
      }
    }
  }

  /**
   * The snapshots of the first `m` steps: for each of them, the run with
   * that step as `current_step` and nothing else changed.
   */
  lemma {:induction false} StepSnapshotsAt(run: Run, m: nat, i: nat)
    requires i < m <= |run.steps|
    ensures |StepSnapshots(run, m)| == m
    ensures StepSnapshots(run, m)[i] == run.(currentStep := Some(run.steps[i]))
    decreases m
  {
    if i < m - 1 {
      StepSnapshotsAt(run, m - 1, i);
    } else if m > 1 {
      StepSnapshotsAt(run, m - 1, 0);
    }
  }

  /**
   * `_save_current_snapshot` is called once per step the run starts, each
   * time with that step as `current_step`, and once more with the run ended.
   */
  lemma SavedSnapshotsShape(run: Run, draws: seq<Draw>, ticks: seq<int>)
    requires WellFormed(run, draws, ticks)
    ensures var s, k := SavedSnapshots(run, draws, ticks), FirstFailure(draws, 0);
      && |s| == (if k < |run.steps| then k + 2 else k + 1)
      && s[|s| - 1] == FinalRun(run, draws, ticks)
      && forall i :: 0 <= i < |s| - 1 ==> s[i] == run.(currentStep := Some(run.steps[i]))
  {
    var k := FirstFailure(draws, 0);
    var s := SavedSnapshots(run, draws, ticks);
    if k > 0 {
      StepSnapshotsAt(run, k, 0);
    }
    forall i | 0 <= i < k
      ensures s[i] == run.(currentStep := Some(run.steps[i]))
    {
      StepSnapshotsAt(run, k, i);
    }
  }

  /** A log is chronological when the timestamps of its lines never go down. */
  predicate Chronological(lines: seq<LogLine>)
  {
    forall i, j :: 0 <= i <= j < |lines| ==> lines[i].at <= lines[j].at
  }

  lemma ChronologicalAppend(a: seq<LogLine>, b: seq<LogLine>)
    requires Chronological(a) && Chronological(b)
    requires a != [] && b != [] ==> a[|a| - 1].at <= b[0].at
    ensures Chronological(a + b)
  {
    var c := a + b;
    forall i, j | 0 <= i <= j < |c| ensures c[i].at <= c[j].at {
      if i < |a| && j >= |a| {
        assert c[i].at <= a[|a| - 1].at;
        assert b[0].at <= c[j].at;
      }
    }
  }

  /** The passed steps' lines are chronological and lie between readings 2 and 3m+1 of the clock. */
  lemma {:induction false} PassedLinesChronological(steps: seq<string>, draws: seq<Draw>, ticks: seq<int>, m: nat)
    requires |draws| == |steps| && m <= |steps| && 3 * m + 2 <= |ticks| && NonDecreasing(ticks)
    ensures var lines := PassedLines(steps, draws, ticks, m);
      && Chronological(lines)
      && forall i :: 0 <= i < |lines| ==> ticks[2] <= lines[i].at <= ticks[3 * m + 1]
    decreases m
  {
    if m > 0 {
      PassedLinesChronological(steps, draws, ticks, m - 1);
      var prev := PassedLines(steps, draws, ticks, m - 1);
      var more := StepLines(steps, draws, ticks, m - 1) + [LogLine(ticks[3 * m + 1], StepOk(steps[m - 1]))];
      assert PassedLines(steps, draws, ticks, m) == prev + more;
      ChronologicalAppend(prev, more);
    }
  }

  /** With a clock that never goes backwards, the timestamps of a run's log lines never go down. */
  lemma TraceChronological(run: Run, draws: seq<Draw>, ticks: seq<int>)
    requires WellFormed(run, draws, ticks) && NonDecreasing(ticks)
    ensures Chronological(Trace(run, draws, ticks))
  {
    var steps, n, k := run.steps, |run.steps|, FirstFailure(draws, 0);
    var head := [LogLine(ticks[1], RunStarted(run.id, run.job))];
    var passed := PassedLines(steps, draws, ticks, k);
    var tail := TailLines(run, draws, ticks);
    var front := head + passed;
    assert Chronological(front) && front[|front| - 1].at <= ticks[3 * k + 1] by {
      PassedLinesChronological(steps, draws, ticks, k);
      ChronologicalAppend(head, passed);
      if passed != [] {
        assert front[|front| - 1] == passed[|passed| - 1];
      }
    }
    assert Chronological(tail) && ticks[3 * k + 2] <= tail[0].at by {
      if k < n {
        assert [tail[0].at, tail[1].at, tail[2].at, tail[3].at]
            == [ticks[3 * k + 2], ticks[3 * k + 3], ticks[3 * k + 6], ticks[3 * k + 7]];
      }
    }
    ChronologicalAppend(front, tail);
  }
}
