# devops_monitor — a Dafny model of the pipeline simulator

`devops_monitor.py` is a small CI/CD dashboard. A request to `/api/run`
creates a run of a job. A job's steps come from the `PIPELINE` catalog, or
from a three-step fallback when the job is unknown. A background thread then
walks the run through its steps. At each step it saves a snapshot of the run
to the current-runs list (`builds.json`) and writes log lines to the run's
log file. Each step may fail with the probability `STEP_FAIL_PROB` gives it.
At the end the run is marked `success` or `failed`, snapshotted a last time
and appended to `history.json`. `/api/stats` derives delivery figures from
that history: deployments today, success and change-failure rates over seven
days, the mean duration and the mean time to recovery (MTTR).

This project models that core and proves its properties:

- `wrappers.dfy` — `Option`.
- `text.dfy` (module `Text`) covers three things:
  - Python's `str.rstrip()`;
  - the one-line normalisation `_write_log` applies;
  - the decimal rendering of integers that the source's f-strings perform.
- `catalog.dfy` (module `Catalog`) covers:
  - `PIPELINE` and `STEP_FAIL_PROB`, with their defaults;
  - `data.get("job") or "app-ci"`.
- `simulator.dfy` (module `Simulator`) covers:
  - `_simulate_step_output`;
  - the failure roll `random.random() < fail_prob`.
- `runs.dfy` (module `Runs`) covers:
  - the run record;
  - the run `api_run` builds;
  - the log lines and their text.
- `snapshots.dfy` (module `Snapshots`) covers `_save_current_snapshot`'s list update: filter, put in front, cap at 100.
- `engine.dfy` (module `Engine`) states, as functions of the run, the draws and the clock readings:
  - what `_simulate_pipeline` leaves behind: the final run, the log lines, the snapshots saved;
  - lemmas about all three.
- `monitor.dfy` (module `Monitor`) holds the class `Store` and its operations. Its fields are the current-runs list, the history and the logs. The operations are:
  - the snapshot writer, the history appender and the log writer;
  - run creation and reset;
  - `_simulate_pipeline` itself, as a loop over the steps that is proved against the `Engine` functions.
- `stats.dfy` (module `Stats`) covers `_calc_stats`:
  - as a function `StatsOf`, with its bounds and lemmas;
  - as a method `CalcStats` whose recovery loop is proved to compute it.

Nondeterminism is injected as inputs:

- **Random draws:** for each step, a `Draw` gives the outcome of the failure roll (`fails`) and the number that `random.randint` or `random.choice` put into the output text (`count`).
- **Clock:** `ticks` lists the clock readings in the order the source takes them. The layout is documented at the top of `engine.dfy`.
- **Run ids:** an id is a parameter.

A timestamp is an integer number of seconds.

## Model

| member | source | states |
|---|---|---|
| Text.RStrip | devops_monitor.py:89 | `rstrip()` returns a prefix of the line that does not end in whitespace, and everything it removed is whitespace |
| Text.NormaliseIdempotent | devops_monitor.py:89 | normalising a line that `_write_log` already normalised changes nothing |
| Text.NormaliseOneLine | devops_monitor.py:89 | a line without newlines is written as exactly one line, ending in its only newline |
| Text.NormaliseIgnoresTrailingSpace | devops_monitor.py:89 | trailing whitespace never changes what is written |
| Text.NatToStringRoundTrip | devops_monitor.py:96 | the decimal text of a count reads back as that count |
| Catalog.ResolveJob | devops_monitor.py:185 | an absent, null or empty (`""`) job selects `app-ci`; any other name is kept, and the result is never empty |
| Catalog.StepsFor | devops_monitor.py:186 | a known job gets its catalog steps; an unknown job gets the three fallback steps; the list is never empty |
| Catalog.FailProb | devops_monitor.py:132 | a step's failure probability lies in (0, 0.22]; a step without an entry gets 0.10 |
| Catalog.CatalogStepsHaveFailProb | devops_monitor.py:47-58 | every step of every catalog job has its own entry in `STEP_FAIL_PROB` |
| Catalog.UnknownJobFallsBack | devops_monitor.py:185-186 | an unknown job is not rejected: it keeps its name and runs checkout, unit-tests and deploy-staging |
| Catalog.MissingJobRunsAppCi | devops_monitor.py:184-186 | a request without a job runs the six `app-ci` steps |
| Simulator.RollBounds | devops_monitor.py:132-133 | a roll of 0.22 or more never fails a step, and a roll of 0 always does |
| Simulator.StepOutput | devops_monitor.py:92-112 | every `deploy…` step reports the rollout message; the generic "Step completed" is returned exactly for steps with no message of their own |
| Simulator.UnitTestCountReported | devops_monitor.py:95-96 | the unit-test count can be read back from the output line as digits |
| Simulator.CatalogStepsHaveOutput | devops_monitor.py:92-112 | no step of a catalog job falls through to "Step completed" |
| Runs.NewRun | devops_monitor.py:184-197 | the new run is `running`, not terminal, has the resolved job and its steps, has the first step current, and has no end time or duration |
| Runs.NewRunUnknownJob | devops_monitor.py:185-193 | an unknown job starts a running run of the fallback steps at `checkout` |
| Runs.LogTextAppend | devops_monitor.py:86-89 | log files are append-only: writing more lines only extends the text already there |
| Runs.LogLineShape | devops_monitor.py:120 | every rendered line begins with `[`, its timestamp in decimal and `] `, and every written line ends in a newline |
| Snapshots.Without | devops_monitor.py:158 | the filtered list holds exactly the entries with another id |
| Snapshots.Upsert | devops_monitor.py:156-160 | the result has 1 to 100 entries and the run first; no later entry has its id; the rest are the other runs in order, cut at the cap |
| Snapshots.WithoutAppend | devops_monitor.py:158 | filtering keeps the remaining entries in their original order |
| Snapshots.WithoutAbsent | devops_monitor.py:158 | filtering out an id no entry has changes nothing |
| Snapshots.WithoutUnique | devops_monitor.py:158 | filtering keeps a duplicate-free list duplicate-free |
| Snapshots.UpsertKeepsIdsUnique | devops_monitor.py:156-160 | the current-runs list never holds two entries for one run id |
| Snapshots.UpsertAbsorbs | devops_monitor.py:156-160 | re-snapshotting a run replaces its earlier snapshot: only the last one matters |
| Snapshots.UpsertEvictsOldest | devops_monitor.py:159-160 | a new run goes in front and, on a full list, pushes out the oldest entry |
| Snapshots.UpsertRetains | devops_monitor.py:158-160 | an entry of another run survives unless the cap pushes it out from the oldest end |
| Engine.FirstFailure | devops_monitor.py:122-144 | the index of the first step whose roll fails: every earlier step passes |
| Engine.FinalRunOutcome | devops_monitor.py:118-153 | the run ends terminal. It is `failed` exactly when some step's roll fails and `success` exactly when none does. Its end time is not before the clock reading `ticks[0]` taken by `start = time.time()`, and its duration is non-negative. Id, job, steps and `started_at` are unchanged |
| Engine.PassedLines | devops_monitor.py:122-144 | each step that passes logs exactly three lines |
| Engine.PassedLinesAt | devops_monitor.py:122-144 | lines 3i to 3i+2 of the passed steps' lines are step i's "started", output and "OK" lines, each with the clock reading taken for it |
| Engine.TraceLayout | devops_monitor.py:115-153 | the whole log, line by line: "started"; per passed step its "started", output and "OK" lines; then the failing step's "started", output, "FAILED" and "finished with status=failed" lines, or the "finished with status=success" line |
| Engine.PassedLinesMarked | devops_monitor.py:122-144 | while steps pass, each is logged as started, with its output and as OK, in step order, and none is logged as failed |
| Engine.TraceMarkedFailing | devops_monitor.py:122-142 | when step k fails, the log starts steps 0..k and shows their output, reports OK for steps 0..k-1 and reports failure for step k only; later steps never run |
| Engine.TraceMarkedPassing | devops_monitor.py:122-150 | when no step fails, every step is started, shows its output and is reported OK, in order, and none failed |
| Engine.TraceBoundaries | devops_monitor.py:120-150 | the log opens with "started" and closes with exactly one "finished" line, which carries the final status |
| Engine.StepSnapshotsAt | devops_monitor.py:122-124 | the i-th snapshot of the step loop is the run with step i current and nothing else changed |
| Engine.SavedSnapshotsShape | devops_monitor.py:122-152 | there is one snapshot per started step, in order, and then exactly one of the terminal run |
| Engine.PassedLinesChronological | devops_monitor.py:122-144 | the passed steps' lines carry non-decreasing timestamps |
| Engine.TraceChronological | devops_monitor.py:115-150 | with a clock that never goes backwards, a run's log lines are in time order |
| Monitor.LogFile | devops_monitor.py:173-179 | a run without a log file reads as the empty text |
| Monitor.LogFileAppend | devops_monitor.py:86-89 | writing a line appends its text to that run's file and leaves every other file unchanged |
| Monitor.LogFileExtend | devops_monitor.py:86-89 | writing several lines appends their texts in order |
| Monitor.Store.constructor | devops_monitor.py:65-72 | with nothing saved, both lists are empty and there are no logs |
| Monitor.Store.ReadLog | devops_monitor.py:173-179 | `api_logs` returns the empty text for a run with no log |
| Monitor.Store.SaveCurrentSnapshot | devops_monitor.py:156-160 | the list becomes `Upsert` of the old list and keeps its invariant (cap and unique ids); history and logs are unchanged |
| Monitor.Store.AppendHistory | devops_monitor.py:80-83 | history grows by exactly the entry; nothing else changes |
| Monitor.Store.WriteLog | devops_monitor.py:86-89 | the line is appended to that run's log, which is created when missing; nothing else changes |
| Monitor.Store.Reset | devops_monitor.py:261-273 | both lists are empty and every log reads as empty |
| Monitor.Store.StartRun | devops_monitor.py:182-199 | the new run is `NewRun` of the request and is saved at the front of the current-runs list; history and logs are unchanged |
| Monitor.Store.BeginStep | devops_monitor.py:123-130 | the run is snapshotted with step i current, and the "started" and output lines are logged |
| Monitor.Store.PassStep | devops_monitor.py:122-144 | a passing step snapshots the run with it current and logs its three lines |
| Monitor.Store.FailRun | devops_monitor.py:134-142 | a failing step ends the run as `FailedAt`, logs FAILED and "finished", replaces the step's snapshot, and appends to history once |
| Monitor.Store.FailStep | devops_monitor.py:123-142 | the failing step's whole effect: snapshot, four log lines, terminal snapshot, one history entry |
| Monitor.Store.SaveFinal | devops_monitor.py:139-141 | the terminal run replaces the run's last snapshot in the current-runs list (keeping its invariant) and is appended to history once; logs are unchanged |
| Monitor.Store.SucceedRun | devops_monitor.py:146-153 | after the last step, the run ends as `Succeeded` (with no step current), logs "finished", is snapshotted and is appended to history once |
| Monitor.Store.PassNext | devops_monitor.py:122-144 | one more passed step keeps the loop's state predicate and leaves history untouched |
| Monitor.Store.PassSteps | devops_monitor.py:122-144 | the loop stops at the first failing step. The logs hold exactly the passed steps' lines, the snapshots are one per passed step, and history is unchanged |
| Monitor.Store.FinishRun | devops_monitor.py:131-153 | the run ends as `FinalRun`, with the matching ending lines and snapshots, and is appended to history once |
| Monitor.Store.SimulatePipeline | devops_monitor.py:115-153 | the whole run: the log grows by `Trace` and the snapshots saved are `SavedSnapshots`. The current-runs list ends as `Upsert` of the terminal run, history grows by exactly that run, and the log file's text is extended by the trace |
| Stats.Where | devops_monitor.py:210-224 | a comprehension keeps exactly the entries that satisfy its condition, no more than it started with |
| Stats.WhereMonotone | devops_monitor.py:212-220 | a stricter condition keeps no more entries |
| Stats.TodayWithinWindow | devops_monitor.py:212-220 | every run finished today is in the seven-day window, so today's count never exceeds the window's |
| Stats.OutsideWindowIgnored | devops_monitor.py:206-224 | a run that has not finished, or finished more than seven days ago, changes none of the figures, also when it is the only entry of the history |
| Stats.CountsBound | devops_monitor.py:222-224 | successes plus failures never exceed the window's size |
| Stats.SumPositive | devops_monitor.py:245 | positive recovery times sum to at least their count |
| Stats.SumBetween | devops_monitor.py:228-229 | a sum of values in [lo, hi] lies between n·lo and n·hi |
| Stats.TruncDiv | devops_monitor.py:229 | `int(a / b)` is the quotient rounded toward zero |
| Stats.MeanBetween | devops_monitor.py:229 | a truncated mean lies between the bounds of its values |
| Stats.Durations | devops_monitor.py:227 | `ds` has at most one entry per run, and none is 0 |
| Stats.DurationsExactly | devops_monitor.py:227 | `ds` holds the duration of every run whose duration is set and non-zero, and nothing else |
| Stats.DurationsAppend | devops_monitor.py:227 | `ds` keeps the window's order: the durations of two histories in sequence are the first's, then the second's |
| Stats.DurationsOne | devops_monitor.py:227 | a single run contributes its duration exactly when it is set and non-zero |
| Stats.AvgDurationBetween | devops_monitor.py:226-229 | with no duration set the mean is 0; otherwise, when every set duration lies in [lo, hi] with lo ≥ 0, the mean lies in [lo, hi] |
| Stats.UnsetDurationIgnored | devops_monitor.py:227 | a run with no duration, or duration 0, does not move the mean |
| Stats.EarliestRecovery | devops_monitor.py:234-243 | a recovery found lies after the failure |
| Stats.EarliestRecoveryIsMinimum | devops_monitor.py:234-243 | it is `None` exactly when `later` is empty; otherwise it is the end time of a later success of the same job, and no such success ends earlier |
| Stats.Recovery | devops_monitor.py:232-244 | a failure's recovery time, when there is one, is positive |
| Stats.Recoveries | devops_monitor.py:231-244 | `mttrs` has at most one entry per visited run, and every entry is positive |
| Stats.RatesBounded | devops_monitor.py:250-251 | both rates lie in [0, 100] and add up to at most 100 |
| Stats.WindowMttr | devops_monitor.py:245 | the MTTR is never negative |
| Stats.StatsOf | devops_monitor.py:205-254 | an empty history gives all zeros. Otherwise the rates lie in [0, 100] and add up to at most 100, today's count is at most the window's, and the MTTR is non-negative. An empty window gives zero rates, duration and MTTR |
| Stats.CollectRecoveries | devops_monitor.py:231-244 | the loop over the window collects exactly `Recoveries` |
| Stats.CalcStats | devops_monitor.py:205-254 | the method computes `StatsOf` |
| Stats.ExampleWindow | devops_monitor.py:212-220 | two runs finished today both count today and in the window |
| Stats.ExampleCounts | devops_monitor.py:222-224 | one success and one failure are counted as such |
| Stats.ExampleDuration | devops_monitor.py:226-229 | the durations 60 s and 120 s average to 90 s |
| Stats.ExampleMttr | devops_monitor.py:231-246 | a single 300 s recovery gives an MTTR of 5 minutes |
| Stats.RecoveryExample | devops_monitor.py:205-254 | a failure recovered 5 minutes later gives 2 deployments today, rates of 50 %, a 90 s mean duration and an MTTR of 5 |
| Stats.WhereAll | devops_monitor.py:211-220 | a comprehension whose condition every entry meets keeps the whole list |
| Stats.ExampleBatchWindow | devops_monitor.py:211-220 | four runs that finished five minutes ago all lie in the window |
| Stats.ExampleBatchCounts | devops_monitor.py:222-224 | three successes and one failure are counted as such |
| Stats.RatesExample | devops_monitor.py:221-251 | three successes and one failure in the window give a success rate of 75 % and a change-failure rate of 25 % |

## Left out

- Flask routing, JSON responses, `render_template`, `api_builds`, `api_history`, `api_history_download` (`json.dumps`) and `__main__`. These only read or serialise the stored state.
- File I/O: `builds.json`, `history.json` and the log files are fields of `Store`. A missing or unreadable JSON file (`_load_json`'s default) is the empty initial state.
- Threading:
  - The engine runs as a call, not in a background thread.
  - Concurrent runs, and a reset racing a running pipeline, are not modelled.
- `time.sleep` and `STEP_TIME` are left out because they only delay.
- Random numbers are inputs (`Draw`), not drawn:
  - `RollFails` states how a roll decides `fails`, but the engine takes `fails` directly.
  - The ranges of `randint(80, 220)`, `randint(25, 90)` and `choice([0, 0, 1, 2, 3])` are not enforced on `count`.
- `uuid.uuid4().hex[:8]`: the run id is a parameter, and nothing requires it to be fresh.
- Timestamps are integer seconds from `ticks`:
  - ISO 8601 formatting, `rstrip("Z")` and parsing back are not modelled.
  - Log lines show the seconds in decimal.
  - `duration_s` is the difference of two readings. This equals `int(time.time() - start)` for whole seconds, but sub-second truncation is not modelled.
- Stats.StatsOf: the rates are exact reals. The source's `round(…, 1)` and floating-point arithmetic are not modelled.
- Stats.StatsOf: the source computes `mttrs` in float minutes (`seconds / 60`). The model divides the total seconds by `60 · n` once, which is the same value in exact arithmetic.
- Catalog.ResolveJob: a `job` that is not a string (a number, a list) is not modelled; only absent, null, empty and string values are.
- Monitor.Store.Reset: deleting log files is modelled as clearing all logs; the per-file `try/except` around `os.remove` is not modelled.
