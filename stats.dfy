/**
 * The DORA-style figures `_calc_stats` derives from the run history:
 * deployments today, success and change-failure rates over the last seven
 * days, the mean duration and the mean time to recovery.  Times are integer
 * seconds; `now` is the clock reading `_calc_stats` takes.
 */
module Stats {
  import opened Wrappers
  import opened Runs

  const DaySeconds: int := 86400
  /** The window of `timedelta(days=7)`. */
  const WindowSeconds: int := 7 * DaySeconds
  const MinuteSeconds: int := 60

  /** The condition of one of `_calc_stats`'s list comprehensions. */
  datatype Condition =
    | IsFinished                     // `h.get("finished_at")`
    | FinishedToday(now: int)        // finished on the calendar day of `now`
    | FinishedWithin(now: int)       // `now - finished_at <= timedelta(days=7)`
    | HasStatus(status: Status)      // `h["status"] == ...`

  /** The calendar day (UTC) of a timestamp: `datetime.date()`, rounding toward the past. */
  function Day(t: int): int
  {
    t / DaySeconds
  }

  predicate Holds(c: Condition, h: Run)
  {
    match c
    case IsFinished => h.finishedAt.Some?
    case FinishedToday(now) => h.finishedAt.Some? && Day(h.finishedAt.value) == Day(now)
    case FinishedWithin(now) => h.finishedAt.Some? && now - h.finishedAt.value <= WindowSeconds
    case HasStatus(st) => h.status == st
  }

  /** The entries of `runs` that satisfy `c`, in their original order. */
  function Where(runs: seq<Run>, c: Condition): (r: seq<Run>)
    ensures |r| <= |runs|
    ensures forall x :: x in r <==> x in runs && Holds(c, x)
    decreases |runs|
  {
    if runs == [] then []
    else Where(runs[..|runs| - 1], c) + (if Holds(c, runs[|runs| - 1]) then [runs[|runs| - 1]] else [])
  }

  /** A stricter condition keeps no more entries than a looser one. */
  lemma {:induction false} WhereMonotone(runs: seq<Run>, c: Condition, d: Condition)
    requires forall x :: x in runs && Holds(c, x) ==> Holds(d, x)
    ensures |Where(runs, c)| <= |Where(runs, d)|
    decreases |runs|
  {
    if runs != [] {
      WhereMonotone(runs[..|runs| - 1], c, d);
      assert runs[|runs| - 1] in runs;
    }
  }

  /** Appending an entry extends the selection by that entry exactly when it satisfies the condition. */
  lemma WhereSnoc(runs: seq<Run>, x: Run, c: Condition)
    ensures Where(runs + [x], c) == Where(runs, c) + (if Holds(c, x) then [x] else [])
  {
    assert (runs + [x])[..|runs|] == runs;
  }

  /** `finished` */
  function Finished(hist: seq<Run>): seq<Run>
  {
    Where(hist, IsFinished)
  }

  /** `today` */
  function Today(hist: seq<Run>, now: int): seq<Run>
  {
    Where(Finished(hist), FinishedToday(now))
  }

  /** `last7` */
  function Window(hist: seq<Run>, now: int): seq<Run>
  {
    Where(Finished(hist), FinishedWithin(now))
  }

  /** How many entries have status `s`. */
  function Count(runs: seq<Run>, s: Status): nat
  {
    |Where(runs, HasStatus(s))|
  }

  /** A run that finished today finished inside the seven-day window, so today's count never exceeds the window's. */
  lemma TodayWithinWindow(hist: seq<Run>, now: int)
    ensures forall h :: h in Today(hist, now) ==> h in Window(hist, now)
    ensures |Today(hist, now)| <= |Window(hist, now)|
  {
    forall h | Holds(FinishedToday(now), h) ensures Holds(FinishedWithin(now), h) {
      var t := h.finishedAt.value;
      assert now - t < DaySeconds;
    }
    WhereMonotone(Finished(hist), FinishedToday(now), FinishedWithin(now));
  }

  /**
   * An entry that has not finished, or finished more than seven days before
   * `now`, changes none of the figures: appended to a history, it leaves them
   * as they were, and alone it gives the figures of an empty history.
   */
  lemma OutsideWindowIgnored(hist: seq<Run>, h: Run, now: int)
    requires !Holds(FinishedWithin(now), h)
    ensures StatsOf(hist + [h], now) == StatsOf(hist, now)
  {
    WhereSnoc(hist, h, IsFinished);
    var f := Finished(hist);
    if Holds(IsFinished, h) {
      assert Finished(hist + [h]) == f + [h];
      WhereSnoc(f, h, FinishedWithin(now));
      WhereSnoc(f, h, FinishedToday(now));
    } else {
      assert Finished(hist + [h]) == f;
    }
    assert Window(hist + [h], now) == Window(hist, now);
    assert Today(hist + [h], now) == Today(hist, now);
    if hist == [] {
      assert Window(hist + [h], now) == [];
      assert Today(hist + [h], now) == [];
    }
  }

  /** No entry is counted both as a success and as a failure. */
  lemma {:induction false} CountsBound(runs: seq<Run>)
    ensures Count(runs, Success) + Count(runs, Failed) <= |runs|
    decreases |runs|
  {
    if runs != [] {
      CountsBound(runs[..|runs| - 1]);
    }
  }

  function Sum(xs: seq<int>): int
    decreases |xs|
  {
    if xs == [] then 0 else Sum(xs[..|xs| - 1]) + xs[|xs| - 1]
  }

  /** The sum of positive numbers is at least their count. */
  lemma {:induction false} SumPositive(xs: seq<int>)
    requires forall i :: 0 <= i < |xs| ==> xs[i] > 0
    ensures Sum(xs) >= |xs|
    decreases |xs|
  {
    if xs != [] {
      SumPositive(xs[..|xs| - 1]);
    }
  }

  /** The sum of numbers in `[lo, hi]` lies between `|xs| * lo` and `|xs| * hi`. */
  lemma {:induction false} SumBetween(xs: seq<int>, lo: int, hi: int)
    requires forall i :: 0 <= i < |xs| ==> lo <= xs[i] <= hi
    ensures |xs| * lo <= Sum(xs) <= |xs| * hi
    decreases |xs|
  {
    if xs != [] {
      SumBetween(xs[..|xs| - 1], lo, hi);
      assert |xs| * lo == (|xs| - 1) * lo + lo;
      assert |xs| * hi == (|xs| - 1) * hi + hi;
    }
  }

  lemma MulMono(x: int, y: int, n: int)
    requires n > 0 && x <= y
    ensures x * n <= y * n
  {
  }

  /** Division of a non-negative number by a positive one rounds down to a non-negative quotient. */
  lemma DivFloor(a: int, b: int)
    requires a >= 0 && b > 0
    ensures 0 <= a / b && (a / b) * b <= a < (a / b) * b + b
  {
    var q := a / b;
    assert a == q * b + a % b;
    if q < 0 {
      MulMono(q, -1, b);
    }
  }

  /** `int(a / b)` for `b > 0`: the quotient truncated toward zero. */
  function TruncDiv(a: int, b: int): (q: int)
    requires b > 0
    ensures a >= 0 ==> 0 <= q && q * b <= a < q * b + b
    ensures a < 0 ==> q <= 0 && q * b - b < a <= q * b
  {
    if a >= 0 then
      DivFloor(a, b);
      a / b
    else
      DivFloor(-a, b);
      -((-a) / b)
  }

  /** The truncated mean of `n` numbers whose sum lies between `n * lo` and `n * hi` lies in `[lo, hi]`. */
  lemma MeanBetween(sum: int, n: int, lo: int, hi: int)
    requires n > 0 && 0 <= lo && n * lo <= sum <= n * hi
    ensures lo <= TruncDiv(sum, n) <= hi
  {
    var q := TruncDiv(sum, n);
    if q > hi {
      MulMono(hi + 1, q, n);
      assert false;
    }
    if q < lo {
      MulMono(q + 1, lo, n);
      assert false;
    }
  }

  /** `ds`: the durations that are set and non-zero, in order; at most one per run. */
  function Durations(runs: seq<Run>): (ds: seq<int>)
    ensures |ds| <= |runs|
    ensures forall i :: 0 <= i < |ds| ==> ds[i] != 0
    decreases |runs|
  {
    if runs == [] then []
    else
      var h := runs[|runs| - 1];
      Durations(runs[..|runs| - 1]) + (if h.durationS.Some? && h.durationS.value != 0 then [h.durationS.value] else [])
  }

  /** `ds` holds the duration of every run that has one set and non-zero, and nothing else. */
  lemma {:induction false} DurationsExactly(runs: seq<Run>)
    ensures forall h :: h in runs && h.durationS.Some? && h.durationS.value != 0 ==> h.durationS.value in Durations(runs)
    ensures forall d :: d in Durations(runs) ==> exists h :: h in runs && h.durationS == Some(d)
    decreases |runs|
  {
    if runs != [] {
      var init, x := runs[..|runs| - 1], runs[|runs| - 1];
      DurationsExactly(init);
      assert runs == init + [x];
    }
  }

  /** The durations of two histories one after the other are the first's durations, then the second's. */
  lemma {:induction false} DurationsAppend(a: seq<Run>, b: seq<Run>)
    ensures Durations(a + b) == Durations(a) + Durations(b)
    decreases |b|
  {
    if b == [] {
      assert a + b == a;
    } else {
      var b', h := b[..|b| - 1], b[|b| - 1];
      var last := if h.durationS.Some? && h.durationS.value != 0 then [h.durationS.value] else [];
      assert (a + b)[..|a + b| - 1] == a + b' && (a + b)[|a + b| - 1] == h;
      assert Durations(a + b) == Durations(a + b') + last;
      assert Durations(b) == Durations(b') + last;
      DurationsAppend(a, b');
    }
  }

  /** One run contributes its duration exactly when it is set and non-zero. */
  lemma DurationsOne(h: Run)
    ensures Durations([h]) == if h.durationS.Some? && h.durationS.value != 0 then [h.durationS.value] else []
  {
    assert [h][..0] == [];
  }

  /** `avg_dur` */
  function AvgDuration(runs: seq<Run>): int
  {
    var ds := Durations(runs);
    if ds == [] then 0 else TruncDiv(Sum(ds), |ds|)
  }

  /** When every set duration lies in `[lo, hi]` with `lo >= 0`, so does the mean (or it is 0 when none is set). */
  lemma AvgDurationBetween(runs: seq<Run>, lo: int, hi: int)
    requires 0 <= lo
    requires forall h :: h in runs && h.durationS.Some? && h.durationS.value != 0 ==> lo <= h.durationS.value <= hi
    ensures Durations(runs) == [] ==> AvgDuration(runs) == 0
    ensures Durations(runs) != [] ==> lo <= AvgDuration(runs) <= hi
  {
    var ds := Durations(runs);
    if ds != [] {
      DurationsExactly(runs);
      forall i | 0 <= i < |ds| ensures lo <= ds[i] <= hi {
        assert ds[i] in ds;
      }
      SumBetween(ds, lo, hi);
      MeanBetween(Sum(ds), |ds|, lo, hi);
    }
  }

  /** A run without a duration, or with duration 0, leaves the mean duration as it was. */
  lemma UnsetDurationIgnored(runs: seq<Run>, h: Run)
    requires h.durationS.None? || h.durationS == Some(0)
    ensures AvgDuration(runs + [h]) == AvgDuration(runs)
  {
    var rs := runs + [h];
    assert rs[..|rs| - 1] == runs;
    assert Durations(rs) == Durations(runs);
  }

  /** A success of `job` that finished strictly after `t`. */
  predicate RecoversAfter(x: Run, job: string, t: int)
  {
    x.job == job && x.finishedAt.Some? && x.finishedAt.value > t && x.status == Success
  }

  /**
   * `min(finished_at of later)`: the earliest end time of a success of `job`
   * in `w` strictly after `t`, or `None` when `later` is empty.
   */
  function EarliestRecovery(w: seq<Run>, job: string, t: int): (r: Option<int>)
    ensures r.Some? ==> r.value > t
    decreases |w|
  {
    if w == [] then None
    else
      var rest := EarliestRecovery(w[..|w| - 1], job, t);
      var x := w[|w| - 1];
      if !RecoversAfter(x, job, t) then rest
      else if rest.None? || x.finishedAt.value < rest.value then Some(x.finishedAt.value)
      else rest
  }

  /**
   * `EarliestRecovery` is `None` exactly when `later` is empty, and otherwise
   * the end time of a success in `later` that no other success in `later` precedes.
   */
  lemma {:induction false} EarliestRecoveryIsMinimum(w: seq<Run>, job: string, t: int)
    ensures var r := EarliestRecovery(w, job, t);
      && (r.None? <==> forall x :: x in w ==> !RecoversAfter(x, job, t))
      && (r.Some? ==> exists x :: x in w && RecoversAfter(x, job, t) && x.finishedAt.value == r.value)
      && (r.Some? ==> forall x :: x in w && RecoversAfter(x, job, t) ==> r.value <= x.finishedAt.value)
    decreases |w|
  {
    if w != [] {
      var init, x := w[..|w| - 1], w[|w| - 1];
      EarliestRecoveryIsMinimum(init, job, t);
      assert forall y :: y in w <==> y in init || y == x;
    }
  }

  /** The recovery time, in seconds, that a failed entry `h` adds to `mttrs`, if any. */
  function Recovery(h: Run, w: seq<Run>): (r: Option<int>)
    ensures r.Some? ==> r.value > 0
  {
    if h.status == Failed && h.finishedAt.Some? then
      match EarliestRecovery(w, h.job, h.finishedAt.value)
      case Some(s) => Some(s - h.finishedAt.value)
      case None => None
    else None
  }

  /** `mttrs` (in seconds) after the loop has visited the entries `hs` of the window `w`. */
  function Recoveries(hs: seq<Run>, w: seq<Run>): (r: seq<int>)
    ensures |r| <= |hs|
    ensures forall i :: 0 <= i < |r| ==> r[i] > 0
    decreases |hs|
  {
    if hs == [] then []
    else
      var h := hs[|hs| - 1];
      Recoveries(hs[..|hs| - 1], w) + (match Recovery(h, w) case Some(d) => [d] case None => [])
  }

  /** `mttr`: the truncated mean of the recovery times, in whole minutes, or 0 when there are none. */
  function MttrMinutes(secs: seq<int>): int
  {
    if secs == [] then 0 else TruncDiv(Sum(secs), MinuteSeconds * |secs|)
  }

  /** `(part / total) * 100`, or 0 when `total` is 0 (the rounding to one decimal is not modelled). */
  function Rate(part: nat, total: nat): real
  {
    if total == 0 then 0.0 else (part as real) / (total as real) * 100.0
  }

  /** Two shares of the same total that do not overlap are percentages that add up to at most 100. */
  lemma RatesBounded(a: nat, b: nat, total: nat)
    requires a + b <= total
    ensures 0.0 <= Rate(a, total) <= 100.0 && 0.0 <= Rate(b, total) <= 100.0
    ensures Rate(a, total) + Rate(b, total) <= 100.0
  {
    if total > 0 {
      var t := total as real;
      assert Rate(a, total) + Rate(b, total) == ((a + b) as real) / t * 100.0;
      assert (a as real) / t <= 1.0 && (b as real) / t <= 1.0 && ((a + b) as real) / t <= 1.0;
    }
  }

  /** The object `_calc_stats` returns. */
  datatype Summary = Summary(
    deploysToday: nat,
    successRate: real,
    changeFailureRate: real,
    avgDuration: int,
    mttrMinutes: int)

  const NoStats := Summary(0, 0.0, 0.0, 0, 0)

  /** The mean time to recovery of a window, in minutes. */
  function WindowMttr(w: seq<Run>): (m: int)
    ensures m >= 0
  {
    var secs := Recoveries(w, w);
    SumPositive(secs);
    MttrMinutes(secs)
  }

  /**
   * `_calc_stats()` over the history `hist` at time `now`: all zeros for an
   * empty history; otherwise percentages within 0..100 that add up to at most
   * 100, today's deployments no more than the window holds, a non-negative
   * MTTR, and zero rates, duration and MTTR when nothing finished in the
   * last seven days.
   */
  function StatsOf(hist: seq<Run>, now: int): (s: Summary)
    ensures hist == [] ==> s == NoStats
    ensures 0.0 <= s.successRate <= 100.0 && 0.0 <= s.changeFailureRate <= 100.0
    ensures s.successRate + s.changeFailureRate <= 100.0
    ensures s.deploysToday <= |Window(hist, now)|
    ensures s.mttrMinutes >= 0
    ensures Window(hist, now) == [] ==> s.successRate == 0.0 && s.changeFailureRate == 0.0
                                         && s.avgDuration == 0 && s.mttrMinutes == 0
  {
    if hist == [] then NoStats
    else
      var w := Window(hist, now);
      CountsBound(w);
      RatesBounded(Count(w, Success), Count(w, Failed), |w|);
      TodayWithinWindow(hist, now);
      Summary(|Today(hist, now)|, Rate(Count(w, Success), |w|), Rate(Count(w, Failed), |w|),
              AvgDuration(w), WindowMttr(w))
  }

  /**
   * The loop of `_calc_stats` that visits the window `w` in order and, for
   * each failure, appends the time to the earliest later success of the same
   * job, when there is one.
   */
  method CollectRecoveries(w: seq<Run>) returns (mttrs: seq<int>)
    ensures mttrs == Recoveries(w, w)
  {
    mttrs := [];
    var i := 0;
    while i < |w|
      invariant 0 <= i <= |w|
      invariant mttrs == Recoveries(w[..i], w)
    {
      var h := w[i];
      assert w[..i + 1][..i] == w[..i];
      ghost var found := Recovery(h, w);
      assert Recoveries(w[..i + 1], w) == mttrs + (match found case Some(d) => [d] case None => []);
      if h.status == Failed && h.finishedAt.Some? {
        var tFail := h.finishedAt.value;
        var tSucc := EarliestRecovery(w, h.job, tFail);
        if tSucc.Some? {
          mttrs := mttrs + [tSucc.value - tFail];
        }
      }
      i := i + 1;
    }
    assert w[..|w|] == w;
  }

  /**
   * `_calc_stats()`: the window is scanned once, failure by failure, to
   * collect the recovery times; the result is `StatsOf(hist, now)`.
   */
  method CalcStats(hist: seq<Run>, now: int) returns (s: Summary)
    ensures s == StatsOf(hist, now)
  {
    if hist == [] {
      return NoStats;
    }
    var today := Today(hist, now);
    var w := Window(hist, now);
    var total := |w|;
    var failures := Count(w, Failed);
    var successes := Count(w, Success);
    var avg := AvgDuration(w);
    var mttrs := CollectRecoveries(w);
    var mttr := MttrMinutes(mttrs);
    s := Summary(|today|, Rate(successes, total), Rate(failures, total), avg, mttr);
  }

  /** A failure of `app-ci` at a fixed time, and its recovery five minutes later. */
  const ExampleTime := 1700000000
  const ExampleFailure := Run("a", "app-ci", Failed, [], None, ExampleTime - 60, Some(ExampleTime), Some(60))
  const ExampleSuccess := Run("b", "app-ci", Success, [], None, ExampleTime + 180, Some(ExampleTime + 300), Some(120))

  /** Both example runs finished today and inside the window. */
  lemma ExampleWindow()
    ensures var hist := [ExampleFailure, ExampleSuccess];
      Today(hist, ExampleTime + 300) == hist && Window(hist, ExampleTime + 300) == hist
  {
    var hist := [ExampleFailure, ExampleSuccess];
    var now := ExampleTime + 300;
    assert hist[..1] == [ExampleFailure] && [ExampleFailure][..0] == [];
    assert Where([ExampleFailure], IsFinished) == [ExampleFailure];
    assert Finished(hist) == hist;
    assert Where([ExampleFailure], FinishedToday(now)) == [ExampleFailure];
    assert Where([ExampleFailure], FinishedWithin(now)) == [ExampleFailure];
  }

  /** The failure recovers 300 seconds later; the success adds no recovery time. */
  lemma ExampleRecoveries()
    ensures var hist := [ExampleFailure, ExampleSuccess];
      Recoveries(hist, hist) == [300]
  {
    var hist := [ExampleFailure, ExampleSuccess];
    assert hist[..1] == [ExampleFailure] && [ExampleFailure][..0] == [];
    assert EarliestRecovery([ExampleFailure], "app-ci", ExampleTime) == None;
    assert EarliestRecovery(hist, "app-ci", ExampleTime) == Some(ExampleTime + 300);
    assert Recovery(ExampleFailure, hist) == Some(300);
    assert Recoveries([ExampleFailure], hist) == [300];
  }

  /** The window holds one success and one failure. */
  lemma ExampleCounts()
    ensures var hist := [ExampleFailure, ExampleSuccess];
      Count(hist, Success) == 1 && Count(hist, Failed) == 1
  {
    var hist := [ExampleFailure, ExampleSuccess];
    assert hist[..1] == [ExampleFailure] && [ExampleFailure][..0] == [];
    assert Where(hist, HasStatus(Success)) == [ExampleSuccess];
    assert Where(hist, HasStatus(Failed)) == [ExampleFailure];
  }

  /** The mean of the two durations is 90 seconds. */
  lemma ExampleDuration()
    ensures AvgDuration([ExampleFailure, ExampleSuccess]) == 90
  {
    var hist := [ExampleFailure, ExampleSuccess];
    assert hist[..1] == [ExampleFailure] && [ExampleFailure][..0] == [];
    assert Durations(hist) == [60, 120];
    assert Sum([60, 120]) == 180 by {
      assert [60, 120][..1] == [60] && [60][..0] == [];
    }
    assert TruncDiv(180, 2) == 90;
  }

  /** The one recovery of 300 seconds is a mean time to recovery of 5 minutes. */
  lemma ExampleMttr()
    ensures var hist := [ExampleFailure, ExampleSuccess];
      WindowMttr(hist) == 5
  {
    ExampleRecoveries();
    assert Sum([300]) == 300 by {
      assert [300][..0] == [];
    }
    assert TruncDiv(300, 60) == 5;
  }

  /**
   * A failure followed five minutes later by a success of the same job, both
   * today: two deployments today, rates of 50%, a mean duration of 90
   * seconds and a recovery time of 5 minutes.
   */
  lemma RecoveryExample()
    ensures StatsOf([ExampleFailure, ExampleSuccess], ExampleTime + 300) == Summary(2, 50.0, 50.0, 90, 5)
  {
    ExampleWindow();
    ExampleCounts();
    ExampleDuration();
    ExampleMttr();
    assert Rate(1, 2) == 50.0;
  }

  /** Two more successes of `app-ci` in the window, after the example's failure and recovery. */
  const ExampleSuccess2 := ExampleSuccess.(id := "c")
  const ExampleSuccess3 := ExampleSuccess.(id := "d")
  const ExampleBatch := [ExampleFailure, ExampleSuccess, ExampleSuccess2, ExampleSuccess3]

  /** When every entry satisfies the condition, the selection is the whole list. */
  lemma {:induction false} WhereAll(runs: seq<Run>, c: Condition)
    requires forall x :: x in runs ==> Holds(c, x)
    ensures Where(runs, c) == runs
    decreases |runs|
  {
    if runs != [] {
      var init, x := runs[..|runs| - 1], runs[|runs| - 1];
      assert runs == init + [x];
      WhereAll(init, c);
    }
  }

  /** All four runs of the batch finished inside the window. */
  lemma ExampleBatchWindow()
    ensures Window(ExampleBatch, ExampleTime + 300) == ExampleBatch
  {
    WhereAll(ExampleBatch, IsFinished);
    WhereAll(ExampleBatch, FinishedWithin(ExampleTime + 300));
  }

  /** The batch holds three successes and one failure. */
  lemma ExampleBatchCounts()
    ensures Count(ExampleBatch, Success) == 3 && Count(ExampleBatch, Failed) == 1
  {
    var b1 := [ExampleFailure];
    var b2 := b1 + [ExampleSuccess];
    var b3 := b2 + [ExampleSuccess2];
    assert ExampleBatch == b3 + [ExampleSuccess3];
    assert [] + b1 == b1;
    forall st | st == Success || st == Failed
      ensures Count(ExampleBatch, st) == (if st == Success then 3 else 1)
    {
      WhereSnoc([], ExampleFailure, HasStatus(st));
      WhereSnoc(b1, ExampleSuccess, HasStatus(st));
      WhereSnoc(b2, ExampleSuccess2, HasStatus(st));
      WhereSnoc(b3, ExampleSuccess3, HasStatus(st));
    }
  }

  /** Three successes and one failure in the window: a success rate of 75% and a change-failure rate of 25%. */
  lemma RatesExample()
    ensures StatsOf(ExampleBatch, ExampleTime + 300).successRate == 75.0
    ensures StatsOf(ExampleBatch, ExampleTime + 300).changeFailureRate == 25.0
  {
    ExampleBatchWindow();
    ExampleBatchCounts();
    assert Rate(3, 4) == 75.0;
    assert Rate(1, 4) == 25.0;
  }
}
