/**
 * The state `devops_monitor.py` keeps on disk (`builds.json`, `history.json`
 * and one log file per run under `logs/`), held in memory, and the operations
 * that change it: the snapshot writer, the history appender, the log writer,
 * run creation (`api_run`), the run engine (`_simulate_pipeline`) and reset.
 */
module Monitor {
  import opened Wrappers
  import opened Simulator
  import opened Runs
  import opened Snapshots
  import opened Engine

  /** The lines written so far to run `id`'s log; none when there is no log file. */
  function Lines(logs: map<string, seq<LogLine>>, id: string): seq<LogLine>
  {
    if id in logs then logs[id] else []
  }

  /** The text of run `id`'s log file, or the empty text when there is no such file. */
  function LogFile(logs: map<string, seq<LogLine>>, id: string): (text: string)
    ensures id !in logs ==> text == ""
  {
    if id in logs then LogText(logs[id]) else ""
  }

  /** Writing a line to one run's log appends its text to that file and leaves every other file as it was. */
  lemma LogFileAppend(logs: map<string, seq<LogLine>>, id: string, line: LogLine)
    ensures var after := logs[id := Lines(logs, id) + [line]];
      && LogFile(after, id) == LogFile(logs, id) + Written(line)
      && forall other :: other != id ==> LogFile(after, other) == LogFile(logs, other)
  {
    LogTextAppend(Lines(logs, id), [line]);
    assert [line][..0] == [];
  }

  /** Writing several lines to a run's log appends their texts, in order, to what the file held. */
  lemma LogFileExtend(logs: map<string, seq<LogLine>>, id: string, more: seq<LogLine>)
    ensures LogFile(logs[id := Lines(logs, id) + more], id) == LogFile(logs, id) + LogText(more)
  {
    LogTextAppend(Lines(logs, id), more);
  }

  /** Writing one file twice leaves what the second write put there. */
  lemma OverwriteTwice(logs: map<string, seq<LogLine>>, id: string, first: seq<LogLine>, second: seq<LogLine>)
    ensures logs[id := first][id := second] == logs[id := second]
  {
  }

  /** Concatenation of log lines is associative. */
  lemma AppendAssoc<T>(a: seq<T>, b: seq<T>, c: seq<T>)
    ensures (a + b) + c == a + (b + c)
  {
  }

  /** The log a run ends with: what was there, the "started" line, the passed steps and the ending lines. */
  lemma TraceAfter(before: seq<LogLine>, run: Run, draws: seq<Draw>, ticks: seq<int>)
    requires WellFormed(run, draws, ticks)
    ensures (before + [LogLine(ticks[1], RunStarted(run.id, run.job))]) + PassedLines(run.steps, draws, ticks, FirstFailure(draws, 0))
            + TailLines(run, draws, ticks)
            == before + Trace(run, draws, ticks)
  {
    var head := [LogLine(ticks[1], RunStarted(run.id, run.job))];
    var passed := PassedLines(run.steps, draws, ticks, FirstFailure(draws, 0));
    var tail := TailLines(run, draws, ticks);
    AppendAssoc(before + head, passed, tail);
    AppendAssoc(before, head, passed + tail);
    AppendAssoc(head, passed, tail);
  }

  class Store {
    /** The current-runs list, most recent first. */
    var current: seq<Run>
    /** Every terminal run, in the order the runs ended. */
    var history: seq<Run>
    /** The lines of each run's log file, by run id. */
    var logs: map<string, seq<LogLine>>
    /** Every snapshot ever saved, in the order of saving (a record for the proofs only). */
    ghost var saved: seq<Run>

    /** The current-runs list stays within its cap and holds each run id once. */
    ghost predicate Valid()
      reads this
    {
      |current| <= Cap && UniqueIds(current)
    }

    /** A store with no saved documents: both lists empty and no log files. */
    constructor ()
      ensures Valid()
      ensures current == [] && history == [] && logs == map[] && saved == []
    {
      current, history, logs := [], [], map[];
      saved := [];
    }

    /** `api_logs(run_id)`: the log file's text, or the empty text when the run has no log. */
    function ReadLog(id: string): (text: string)
      reads this
      ensures id !in logs ==> text == ""
    {
      LogFile(logs, id)
    }

    /** `_save_current_snapshot(run)` */
    method SaveCurrentSnapshot(run: Run)
      requires Valid()
      modifies this
      ensures Valid()
      ensures current == Upsert(old(current), run)
      ensures saved == old(saved) + [run]
      ensures history == old(history) && logs == old(logs)
    {
      UpsertKeepsIdsUnique(current, run);
      current := Upsert(current, run);
      saved := saved + [run];
    }

    /** `_append_history(entry)` */
    method AppendHistory(entry: Run)
      modifies this
      ensures history == old(history) + [entry]
      ensures current == old(current) && logs == old(logs) && saved == old(saved)
    {
      history := history + [entry];
    }

    /** `_write_log(run_id, line)`: the line is appended to the run's log, which is created when missing. */
    method WriteLog(id: string, line: LogLine)
      modifies this
      ensures logs == old(logs)[id := Lines(old(logs), id) + [line]]
      ensures current == old(current) && history == old(history) && saved == old(saved)
    {
      logs := logs[id := Lines(logs, id) + [line]];
    }

    /** `api_reset`: both lists become empty and every log file is gone. */
    method Reset()
      modifies this
      ensures Valid()
      ensures current == [] && history == [] && logs == map[]
      ensures forall id :: ReadLog(id) == ""
      ensures saved == old(saved)
    {
      current, history, logs := [], [], map[];
    }

    /**
     * `api_run`: builds the new run for the requested job, with the given id
     * and start time, and saves its first snapshot.  The engine is started
     * separately (the source hands the run to a background thread).
     */
    method StartRun(id: string, requested: Option<string>, now: int) returns (run: Run)
      requires Valid()
      modifies this
      ensures Valid()
      ensures run == NewRun(id, requested, now)
      ensures current == Upsert(old(current), run) && current[0] == run
      ensures saved == old(saved) + [run]
      ensures history == old(history) && logs == old(logs)
    {
      run := NewRun(id, requested, now);
      SaveCurrentSnapshot(run);
    }

    /**
     * The start of step `i` in `_simulate_pipeline`: the run is saved with the
     * step as `current_step`, then the step's "started" and output lines are logged.
     */
    method BeginStep(run: Run, i: nat, draws: seq<Draw>, ticks: seq<int>) returns (r: Run)
      requires Valid()
      requires WellFormed(run, draws, ticks) && i < |run.steps|
      modifies this
      ensures r == run.(currentStep := Some(run.steps[i]))
      ensures Valid()
      ensures current == Upsert(old(current), r)
      ensures saved == old(saved) + [r]
      ensures logs == old(logs)[run.id := Lines(old(logs), run.id) + StepLines(run.steps, draws, ticks, i)]
      ensures history == old(history)
    {
      var step := run.steps[i];
      r := run.(currentStep := Some(step));
      SaveCurrentSnapshot(r);
      var started := LogLine(ticks[3 * i + 2], StepStarted(step));
      var output := LogLine(ticks[3 * i + 3], Output(step, draws[i].count));
      WriteLog(run.id, started);
      WriteLog(run.id, output);
      assert Lines(old(logs), run.id) + [started] + [output] == Lines(old(logs), run.id) + StepLines(run.steps, draws, ticks, i);
    }

    /**
     * The end of a run whose step `i` failed: status, end time and duration
     * are set, the "FAILED" and "finished" lines are logged, and the terminal
     * run is saved and appended to history.
     */
    method FailRun(run: Run, i: nat, ticks: seq<int>, ghost before: seq<Run>) returns (final: Run)
      requires Valid()
      requires i < |run.steps| && 3 * i + 8 <= |ticks|
      requires current == Upsert(before, run.(currentStep := Some(run.steps[i])))
      modifies this
      ensures final == FailedAt(run, i, ticks)
      ensures Valid()
      ensures current == Upsert(before, final)
      ensures saved == old(saved) + [final]
      ensures history == old(history) + [final]
      ensures logs == old(logs)[run.id := Lines(old(logs), run.id)
                       + [LogLine(ticks[3 * i + 6], StepFailed(run.steps[i])), LogLine(ticks[3 * i + 7], RunFinished(run.id, Failed))]]
    {
      var id, step := run.id, run.steps[i];
      var r := run.(currentStep := Some(step));
      final := r.(status := Failed, finishedAt := Some(ticks[3 * i + 4]), durationS := Some(ticks[3 * i + 5] - ticks[0]));
      var failed := LogLine(ticks[3 * i + 6], StepFailed(step));
      var finished := LogLine(ticks[3 * i + 7], RunFinished(id, Failed));
      WriteLog(id, failed);
      WriteLog(id, finished);
      assert Lines(old(logs), id) + [failed] + [finished] == Lines(old(logs), id) + [failed, finished];
      final := final.(currentStep := None);
      assert final == FailedAt(run, i, ticks);
      SaveFinal(final, before, Some(r));
    }

    /**
     * The last two calls of both endings of `_simulate_pipeline`: the terminal
     * run replaces the run's last snapshot, if any, and is appended to history.
     */
    method SaveFinal(final: Run, ghost before: seq<Run>, ghost last: Option<Run>)
      requires Valid()
      requires last.Some? ==> last.value.id == final.id && current == Upsert(before, last.value)
      requires last.None? ==> current == before
      modifies this
      ensures Valid()
      ensures current == Upsert(before, final)
      ensures saved == old(saved) + [final]
      ensures history == old(history) + [final]
      ensures logs == old(logs)
    {
      SaveCurrentSnapshot(final);
      if last.Some? {
        UpsertAbsorbs(before, last.value, final);
      }
      AppendHistory(final);
    }

    /**
     * The end of a run whose steps all passed: status, end time and duration
     * are set, the "finished" line is logged, and the terminal run is saved
     * and appended to history.
     */
    method SucceedRun(run: Run, ticks: seq<int>, ghost before: seq<Run>) returns (final: Run)
      requires Valid()
      requires 3 * |run.steps| + 5 <= |ticks|
      requires |run.steps| > 0 ==> current == Upsert(before, run.(currentStep := Some(run.steps[|run.steps| - 1])))
      requires |run.steps| == 0 ==> current == before
      modifies this
      ensures final == Succeeded(run, ticks)
      ensures Valid()
      ensures current == Upsert(before, final)
      ensures saved == old(saved) + [final]
      ensures history == old(history) + [final]
      ensures logs == old(logs)[run.id := Lines(old(logs), run.id) + [LogLine(ticks[3 * |run.steps| + 4], RunFinished(run.id, Success))]]
    {
      var n := |run.steps|;
      final := run.(status := Success, finishedAt := Some(ticks[3 * n + 2]), durationS := Some(ticks[3 * n + 3] - ticks[0]));
      final := final.(currentStep := None);
      assert final == Succeeded(run, ticks);
      WriteLog(run.id, LogLine(ticks[3 * n + 4], RunFinished(run.id, Success)));
      SaveFinal(final, before, if n > 0 then Some(run.(currentStep := Some(run.steps[n - 1]))) else None);
    }

    /**
     * A step of `_simulate_pipeline` that passes: the run is saved with the
     * step as `current_step`, and the "started", output and "OK" lines are logged.
     */
    method PassStep(run: Run, i: nat, draws: seq<Draw>, ticks: seq<int>, ghost base: seq<Run>) returns (r: Run)
      requires Valid()
      requires WellFormed(run, draws, ticks) && i < |run.steps|
      requires i == 0 ==> current == base
      requires i > 0 ==> current == Upsert(base, run.(currentStep := Some(run.steps[i - 1])))
      modifies this
      ensures r == run.(currentStep := Some(run.steps[i]))
      ensures Valid()
      ensures current == Upsert(base, r)
      ensures saved == old(saved) + [r]
      ensures logs == old(logs)[run.id := Lines(old(logs), run.id) + PassedStep(run.steps, draws, ticks, i)]
      ensures history == old(history)
    {
      r := BeginStep(run, i, draws, ticks);
      if i > 0 {
        UpsertAbsorbs(base, run.(currentStep := Some(run.steps[i - 1])), r);
      }
      ghost var begun := Lines(old(logs), run.id) + StepLines(run.steps, draws, ticks, i);
      var ok := LogLine(ticks[3 * i + 4], StepOk(run.steps[i]));
      WriteLog(run.id, ok);
      OverwriteTwice(old(logs), run.id, begun, begun + [ok]);
      AppendAssoc(Lines(old(logs), run.id), StepLines(run.steps, draws, ticks, i), [ok]);
    }

    /**
     * A step of `_simulate_pipeline` that fails: the run is saved with the
     * step as `current_step`, its "started" and output lines are logged, and
     * then the run ends as `FailRun` describes.
     */
    method FailStep(run: Run, i: nat, draws: seq<Draw>, ticks: seq<int>, ghost base: seq<Run>) returns (final: Run)
      requires Valid()
      requires WellFormed(run, draws, ticks) && i < |run.steps|
      requires i == 0 ==> current == base
      requires i > 0 ==> current == Upsert(base, run.(currentStep := Some(run.steps[i - 1])))
      requires FirstFailure(draws, 0) == i
      modifies this
      ensures final == FinalRun(run, draws, ticks)
      ensures Valid()
      ensures current == Upsert(base, final)
      ensures saved == old(saved) + [run.(currentStep := Some(run.steps[i])), final]
      ensures logs == old(logs)[run.id := Lines(old(logs), run.id) + TailLines(run, draws, ticks)]
      ensures history == old(history) + [final]
    {
      ghost var ending := [LogLine(ticks[3 * i + 6], StepFailed(run.steps[i])), LogLine(ticks[3 * i + 7], RunFinished(run.id, Failed))];
      assert TailLines(run, draws, ticks) == StepLines(run.steps, draws, ticks, i) + ending;
      assert FinalRun(run, draws, ticks) == FailedAt(run, i, ticks);
      var r := BeginStep(run, i, draws, ticks);
      if i > 0 {
        UpsertAbsorbs(base, run.(currentStep := Some(run.steps[i - 1])), r);
      }
      ghost var begun := Lines(old(logs), run.id) + StepLines(run.steps, draws, ticks, i);
      final := FailRun(run, i, ticks, base);
      OverwriteTwice(old(logs), run.id, begun, begun + ending);
      AppendAssoc(Lines(old(logs), run.id), StepLines(run.steps, draws, ticks, i), ending);
    }

    /**
     * The state of the store once the first `i` steps of `run` have passed,
     * starting from the current-runs list `base`, the log files `logs0` with
     * `prefix` in the run's file, and the snapshots `saved0`.
     */
    ghost predicate PassedState(run: Run, draws: seq<Draw>, ticks: seq<int>, i: nat, base: seq<Run>,
                                logs0: map<string, seq<LogLine>>, prefix: seq<LogLine>, saved0: seq<Run>)
      requires WellFormed(run, draws, ticks) && i <= |run.steps|
      reads this
    {
      && Valid()
      && current == (if i == 0 then base else Upsert(base, run.(currentStep := Some(run.steps[i - 1]))))
      && logs == logs0[run.id := prefix + PassedLines(run.steps, draws, ticks, i)]
      && saved == saved0 + StepSnapshots(run, i)
    }

    /**
     * One round of the loop of `_simulate_pipeline` for a step that passes:
     * the log so far grows by the step's lines and the saved snapshots by the
     * step's snapshot.
     */
    method PassNext(run: Run, i: nat, draws: seq<Draw>, ticks: seq<int>, ghost base: seq<Run>,
                    ghost logs0: map<string, seq<LogLine>>, ghost prefix: seq<LogLine>, ghost saved0: seq<Run>)
      requires WellFormed(run, draws, ticks) && i < |run.steps|
      requires PassedState(run, draws, ticks, i, base, logs0, prefix, saved0)
      modifies this
      ensures PassedState(run, draws, ticks, i + 1, base, logs0, prefix, saved0)
      ensures history == old(history)
    {
      var id, steps := run.id, run.steps;
      ghost var passed := PassedLines(steps, draws, ticks, i);
      ghost var more := PassedStep(steps, draws, ticks, i);
      ghost var snapshot := run.(currentStep := Some(steps[i]));
      assert PassedLines(steps, draws, ticks, i + 1) == passed + more;
      assert StepSnapshots(run, i + 1) == StepSnapshots(run, i) + [snapshot];
      assert Lines(logs, id) == prefix + passed;
      var r := PassStep(run, i, draws, ticks, base);
      assert r == snapshot;
      OverwriteTwice(logs0, id, prefix + passed, (prefix + passed) + more);
      AppendAssoc(prefix, passed, more);
      assert logs == logs0[id := prefix + PassedLines(steps, draws, ticks, i + 1)];
      AppendAssoc(saved0, StepSnapshots(run, i), [snapshot]);
      assert saved == saved0 + StepSnapshots(run, i + 1);
    }

    /**
     * The loop of `_simulate_pipeline` up to the first failing step: each
     * step is started, saved and logged with its "OK" line.  Returns how many
     * steps passed; the store is then in the state `PassedState` describes.
     */
    method PassLoop(run: Run, draws: seq<Draw>, ticks: seq<int>, ghost prefix: seq<LogLine>) returns (i: nat)
      requires WellFormed(run, draws, ticks)
      requires PassedState(run, draws, ticks, 0, current, logs, prefix, saved)
      modifies this
      ensures i == FirstFailure(draws, 0)
      ensures PassedState(run, draws, ticks, i, old(current), old(logs), prefix, old(saved))
      ensures history == old(history)
    {
      ghost var k := FirstFailure(draws, 0);
      i := 0;
      while i < |run.steps| && !draws[i].fails
        invariant i <= |run.steps| && FirstFailure(draws, i) == k
        invariant PassedState(run, draws, ticks, i, old(current), old(logs), prefix, old(saved))
        invariant history == old(history)
      {
        PassNext(run, i, draws, ticks, old(current), old(logs), prefix, old(saved));
        i := i + 1;
      }
    }

    /** The passing steps of `_simulate_pipeline`, stated as changes to the store. */
    method PassSteps(run: Run, draws: seq<Draw>, ticks: seq<int>) returns (i: nat)
      requires Valid()
      requires WellFormed(run, draws, ticks) && run.id in logs
      modifies this
      ensures i == FirstFailure(draws, 0)
      ensures Valid()
      ensures i == 0 ==> current == old(current)
      ensures i > 0 ==> current == Upsert(old(current), run.(currentStep := Some(run.steps[i - 1])))
      ensures history == old(history)
      ensures logs == old(logs)[run.id := Lines(old(logs), run.id) + PassedLines(run.steps, draws, ticks, i)]
      ensures saved == old(saved) + StepSnapshots(run, i)
    {
      ghost var prefix := Lines(logs, run.id);
      assert prefix + PassedLines(run.steps, draws, ticks, 0) == prefix;
      assert saved + StepSnapshots(run, 0) == saved;
      assert PassedState(run, draws, ticks, 0, current, logs, prefix, saved);
      i := PassLoop(run, draws, ticks, prefix);
    }

    /**
     * The end of `_simulate_pipeline` once the passing steps are done: either
     * step `i` fails, or all steps passed and the run succeeds.
     */
    method FinishRun(run: Run, i: nat, draws: seq<Draw>, ticks: seq<int>, ghost base: seq<Run>) returns (final: Run)
      requires Valid()
      requires WellFormed(run, draws, ticks) && FirstFailure(draws, 0) == i
      requires i == 0 ==> current == base
      requires i > 0 ==> current == Upsert(base, run.(currentStep := Some(run.steps[i - 1])))
      modifies this
      ensures final == FinalRun(run, draws, ticks)
      ensures Valid()
      ensures current == Upsert(base, final)
      ensures history == old(history) + [final]
      ensures logs == old(logs)[run.id := Lines(old(logs), run.id) + TailLines(run, draws, ticks)]
      ensures saved == old(saved) + TailSnapshots(run, draws, ticks)
    {
      if i < |run.steps| {
        final := FailStep(run, i, draws, ticks, base);
      } else {
        assert TailLines(run, draws, ticks) == [LogLine(ticks[3 * |run.steps| + 4], RunFinished(run.id, Success))];
        final := SucceedRun(run, ticks, base);
      }
    }

    /**
     * `_simulate_pipeline(run)`, with the failure and output draws of the
     * steps in `draws` and the clock readings in `ticks`.  The run's log grows
     * by `Trace`, one snapshot per started step and then the terminal run are
     * saved, and the terminal run is appended to history exactly once.
     */
    method SimulatePipeline(run: Run, draws: seq<Draw>, ticks: seq<int>) returns (final: Run)
      requires Valid()
      requires WellFormed(run, draws, ticks)
      modifies this
      ensures Valid()
      ensures final == FinalRun(run, draws, ticks)
      ensures current == Upsert(old(current), final)
      ensures history == old(history) + [final]
      ensures logs == old(logs)[run.id := Lines(old(logs), run.id) + Trace(run, draws, ticks)]
      ensures saved == old(saved) + SavedSnapshots(run, draws, ticks)
      ensures ReadLog(run.id) == old(ReadLog(run.id)) + LogText(Trace(run, draws, ticks))
    {
      var id := run.id;
      ghost var before := Lines(logs, id);
      var head := LogLine(ticks[1], RunStarted(id, run.job));
      WriteLog(id, head);
      ghost var prefix := before + [head];
      var i := PassSteps(run, draws, ticks);
      ghost var passed := PassedLines(run.steps, draws, ticks, i);
      OverwriteTwice(old(logs), id, prefix, prefix + passed);
      final := FinishRun(run, i, draws, ticks, old(current));
      OverwriteTwice(old(logs), id, prefix + passed, (prefix + passed) + TailLines(run, draws, ticks));
      TraceAfter(before, run, draws, ticks);
      AppendAssoc(old(saved), StepSnapshots(run, i), TailSnapshots(run, draws, ticks));
      LogFileExtend(old(logs), id, Trace(run, draws, ticks));
    }
  }
}
