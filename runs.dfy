/**
 * A pipeline run as `devops_monitor.py` stores it (the dict built in
 * `api_run` and mutated by `_simulate_pipeline`), and the lines written to
 * a run's log.  Timestamps are integer seconds from the injected clock.
 */
module Runs {
  import opened Wrappers
  import opened Text
  import opened Catalog
  import opened Simulator

  datatype Status = Running | Success | Failed

  /** The `status` string the source stores and logs. */
  function StatusName(s: Status): string
  {
    match s
    case Running => "running"
    case Success => "success"
    case Failed => "failed"
  }

  datatype Run = Run(
    id: string,
    job: string,
    status: Status,
    steps: seq<string>,
    currentStep: Option<string>,
    startedAt: int,
    finishedAt: Option<int>,
    durationS: Option<int>)

  /** A run that has reached its end: a final status, both end fields set, no step in progress. */
  predicate Terminal(r: Run)
  {
    r.status != Running && r.finishedAt.Some? && r.durationS.Some? && r.currentStep.None?
  }

  /**
   * The run `api_run` creates for a request naming `requested` (absent when the
   * request body has no `job`), with the identifier and start time it draws.
   */
  function NewRun(id: string, requested: Option<string>, now: int): (r: Run)
    ensures r.id == id && r.startedAt == now
    ensures r.status == Running && !Terminal(r)
    ensures r.job == ResolveJob(requested) && r.steps == StepsFor(r.job)
    ensures |r.steps| > 0 && r.currentStep == Some(r.steps[0])
    ensures r.finishedAt.None? && r.durationS.None?
  {
    var job := ResolveJob(requested);
    var steps := StepsFor(job);
    Run(id, job, Running, steps, if |steps| > 0 then Some(steps[0]) else None, now, None, None)
  }

  /** A request for a job the catalog does not know starts a running run of the three fallback steps. */
  lemma NewRunUnknownJob(id: string, job: string, now: int)
    requires job != "" && job !in Pipeline
    ensures var r := NewRun(id, Some(job), now);
      r.job == job && r.steps == ["checkout", "unit-tests", "deploy-staging"] && r.currentStep == Some("checkout")
  {
  }

  /** What one log line says, before the timestamp is put in front of it. */
  datatype Event =
    | RunStarted(runId: string, job: string)
    | StepStarted(step: string)
    | Output(step: string, count: nat)
    | StepFailed(step: string)
    | StepOk(step: string)
    | RunFinished(runId: string, outcome: Status)

  datatype LogLine = LogLine(at: int, event: Event)

  /** The message texts of `_simulate_pipeline`'s `_write_log` calls. */
  function Message(e: Event): string
  {
    match e
    case RunStarted(id, job) => "Run " + id + " started (job=" + job + ")"
    case StepStarted(step) => "Step '" + step + "' started"
    case Output(step, count) => StepOutput(step, count)
    case StepFailed(step) => "Step '" + step + "' FAILED"
    case StepOk(step) => "Step '" + step + "' OK"
    case RunFinished(id, outcome) => "Run " + id + " finished with status=" + StatusName(outcome)
  }

  /** `f"[{_utcnow_iso()}] {message}"`, with the time written as seconds. */
  function Render(line: LogLine): string
  {
    "[" + IntToString(line.at) + "] " + Message(line.event)
  }

  /** The text `_write_log` appends to the file for one line. */
  function Written(line: LogLine): string
  {
    Normalise(Render(line))
  }

  /** The contents of a log file holding these lines, each written by `_write_log`. */
  function LogText(lines: seq<LogLine>): string
  {
    Concat(lines, Written)
  }

  /** The texts `f` gives the elements of `xs`, one after the other. */
  function Concat<T>(xs: seq<T>, f: T -> string): string
    decreases |xs|
  {
    if xs == [] then "" else Concat(xs[..|xs| - 1], f) + f(xs[|xs| - 1])
  }

  lemma {:induction false} ConcatAppend<T>(a: seq<T>, b: seq<T>, f: T -> string)
    ensures Concat(a + b, f) == Concat(a, f) + Concat(b, f)
    decreases |b|
  {
    if b == [] {
      assert a + b == a;
    } else {
      var b' := b[..|b| - 1];
      assert (a + b)[..|a + b| - 1] == a + b';
      ConcatAppend(a, b', f);
    }
  }

  /** Logs are append-only: writing more lines only extends the text already there. */
  lemma LogTextAppend(a: seq<LogLine>, b: seq<LogLine>)
    ensures LogText(a + b) == LogText(a) + LogText(b)
  {
    ConcatAppend(a, b, Written);
  }

  /** Every rendered line starts with its bracketed timestamp, and each written line ends with a newline. */
  lemma LogLineShape(line: LogLine)
    ensures "[" + IntToString(line.at) + "] " <= Render(line)
    ensures var n := Written(line); n[|n| - 1] == '\n'
  {
  }
}
