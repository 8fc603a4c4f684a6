/**
 * The headline figure of the seeded fixture in closed form: a lifetime counter that
 * loses its total in the middle of the span (scripts/fixture-1-2-0.ts), measured with
 * the counter arithmetic of packages/db/src/counter-energy.ts.
 */
module HeadlineError {
  import opened Wrappers
  import opened Spans
  import opened Sorting
  import opened CounterEnergy
  import opened ValueModel

  /** A lifetime counter sampled once a minute from `start`. */
  datatype Run = Run(metric: string, start: int, rate: real, offset: real, spanDays: nat) {
    function Restart(): int { RestartMinute(spanDays) }

    function Shape(): Shape { Counter(rate, offset, false, Some(Restart())) }

    predicate Valid() { rate > 0.0 && offset >= 0.0 && spanDays >= 2 && start % DAY_MS == 0 }

    function Value(m: int, t: Trig): real { ValueAt(Shape(), m, t) }

    function Sample(m: int, t: Trig): Reading { Reading(metric, start + m * MINUTE_MS, Value(m, t)) }

    function Samples(k: nat, t: Trig): (xs: seq<Reading>)
      ensures |xs| == k && forall m :: 0 <= m < k ==> xs[m] == Sample(m, t)
    {
      if k == 0 then [] else Samples(k - 1, t) + [Sample(k - 1, t)]
    }
  }

  // ----- one minute's step ------------------------------------------------------------

  lemma OneMinuteMore(rate: real, m: int)
    ensures rate * m as real / 1440.0 == rate * (m - 1) as real / 1440.0 + rate / 1440.0
  {
    assert (m - 1) as real == m as real - 1.0;
    assert rate * (m - 1) as real == rate * m as real - rate;
  }

  lemma NoMinutesYet(rate: real, m: int)
    requires rate > 0.0 && m >= 0
    ensures rate * m as real / 1440.0 >= 0.0
  {
  }

  /** What is lost is everything up to the restart. */
  lemma SinceRestart(run: Run, m: int, t: Trig)
    requires run.Valid()
    ensures m < run.Restart() ==> run.Value(m, t) == run.offset + run.rate * m as real / 1440.0
    ensures m >= run.Restart()
        ==> run.Value(m, t) == run.rate * m as real / 1440.0 - run.rate * run.Restart() as real / 1440.0
  {
  }

  lemma {:induction false} NeverNegative(run: Run, m: int, t: Trig)
    requires run.Valid() && m >= 0
    ensures run.Value(m, t) >= 0.0
    ensures m == run.Restart() ==> run.Value(m, t) == 0.0
    decreases m
  {
    SinceRestart(run, m, t);
    if m < run.Restart() {
      NoMinutesYet(run.rate, m);
    } else if m > run.Restart() {
      NeverNegative(run, m - 1, t);
      SinceRestart(run, m - 1, t);
      OneMinuteMore(run.rate, m);
    }
  }

  lemma OrdinaryStep(run: Run, m: int, t: Trig)
    requires run.Valid() && m >= 1 && m != run.Restart()
    ensures run.Value(m, t) == run.Value(m - 1, t) + run.rate / 1440.0
  {
    SinceRestart(run, m, t);
    SinceRestart(run, m - 1, t);
    hide ValueAt, Run.Value;
    OneMinuteMore(run.rate, m);
  }

  lemma RestartStep(run: Run, t: Trig)
    requires run.Valid()
    ensures run.Value(run.Restart() - 1, t) > 0.0 == run.Value(run.Restart(), t)
  {
    var m := run.Restart();
    SinceRestart(run, m - 1, t);
    NeverNegative(run, m, t);
    hide ValueAt, Run.Value;
    OneMinuteMore(run.rate, m - 1);
    NoMinutesYet(run.rate, m - 2);
  }

  /** Every minute adds the same, and the restart alone takes everything away. */
  lemma MinuteStep(run: Run, m: int, t: Trig)
    requires run.Valid() && m >= 1
    ensures CounterIncrement(run.Value(m - 1, t), run.Value(m, t))
         == if m == run.Restart() then 0.0 else run.rate / 1440.0
    ensures run.Value(m, t) < run.Value(m - 1, t) <==> m == run.Restart()
  {
    hide ValueAt, Run.Value;
    if m == run.Restart() {
      RestartStep(run, t);
    } else {
      OrdinaryStep(run, m, t);
      NeverNegative(run, m, t);
      NeverNegative(run, m - 1, t);
    }
  }

  // ----- a day's steps ------------------------------------------------------------------

  function DayOfRun(run: Run, d: int): int { run.start / DAY_MS + d }

  lemma SampleDay(run: Run, m: int)
    requires run.Valid()
    ensures UtcDay(run.start + m * MINUTE_MS) == DayOfRun(run, m / MINUTES_PER_DAY)
  {
    var d, r, s := m / 1440, m % 1440, run.start / DAY_MS;
    assert run.start + m * MINUTE_MS == (s + d) * DAY_MS + r * MINUTE_MS;
    assert ((s + d) * 86_400_000 + r * 60_000) / 86_400_000 == s + d;
  }

  /** Steps that end in the first `k` minutes, on day `d`, other than the restart. */
  function Steps(k: nat, d: nat, restart: int): nat {
    if k <= 1 then 0
    else Steps(k - 1, d, restart) + if (k - 1) / MINUTES_PER_DAY == d && k - 1 != restart then 1 else 0
  }

  /** `x` added up `n` times. */
  function Copies(n: nat, x: real): real { if n == 0 then 0.0 else Copies(n - 1, x) + x }

  lemma {:induction false} CopiesMultiply(n: nat, x: real)
    ensures Copies(n, x) == n as real * x
  {
    if n > 0 {
      CopiesMultiply(n - 1, x);
      assert (n - 1) as real * x == n as real * x - x;
    }
  }

  lemma LastStep(run: Run, k: nat, d: nat, t: Trig)
    requires run.Valid() && k > 1
    ensures var xs, before, day := run.Samples(k, t), run.Samples(k - 1, t), DayOfRun(run, d);
            var here := (k - 1) / MINUTES_PER_DAY == d;
            && DayEnergy(xs, day) == DayEnergy(before, day)
               + (if here then CounterIncrement(run.Value(k - 2, t), run.Value(k - 1, t)) else 0.0)
            && DayResets(xs, day) == DayResets(before, day)
               + if here && run.Value(k - 1, t) < run.Value(k - 2, t) then 1 else 0
  {
    hide CounterIncrement, ValueAt, Run.Value;
    var xs := run.Samples(k, t);
    assert xs[..k - 1] == run.Samples(k - 1, t);
    SampleDay(run, k - 1);
  }

  lemma StepCounted(k: nat, d: nat, restart: int, x: real)
    requires k > 1
    ensures Copies(Steps(k, d, restart), x)
         == Copies(Steps(k - 1, d, restart), x) + if (k - 1) / MINUTES_PER_DAY == d && k - 1 != restart then x else 0.0
  {
  }

  lemma StepEnergy(run: Run, k: nat, d: nat, t: Trig)
    requires run.Valid() && k > 1
    ensures DayEnergy(run.Samples(k, t), DayOfRun(run, d))
         == DayEnergy(run.Samples(k - 1, t), DayOfRun(run, d))
            + if (k - 1) / MINUTES_PER_DAY == d && k - 1 != run.Restart() then run.rate / 1440.0 else 0.0
  {
    hide *;
    LastStep(run, k, d, t);
    MinuteStep(run, k - 1, t);
  }

  lemma NoStepYet(run: Run, k: nat, d: nat, t: Trig)
    requires k <= 1
    ensures DayEnergy(run.Samples(k, t), DayOfRun(run, d)) == Copies(Steps(k, d, run.Restart()), run.rate / 1440.0)
  {
    hide ValueAt, Run.Value;
  }

  lemma {:induction false} DayEnergyIsSteps(run: Run, k: nat, d: nat, t: Trig)
    requires run.Valid()
    ensures DayEnergy(run.Samples(k, t), DayOfRun(run, d)) == Copies(Steps(k, d, run.Restart()), run.rate / 1440.0)
  {
    hide *;
    if k > 1 {
      DayEnergyIsSteps(run, k - 1, d, t);
      StepEnergy(run, k, d, t);
      StepCounted(k, d, run.Restart(), run.rate / 1440.0);
    } else {
      NoStepYet(run, k, d, t);
    }
  }

  lemma {:induction false} DayResetsAreTheRestart(run: Run, k: nat, d: nat, t: Trig)
    requires run.Valid()
    ensures DayResets(run.Samples(k, t), DayOfRun(run, d))
         == if 1 <= run.Restart() < k && run.Restart() / MINUTES_PER_DAY == d then 1 else 0
  {
    if k > 1 {
      hide CounterIncrement, ValueAt, Run.Value, DayEnergy, DayResets, Run.Samples, DayOfRun;
      DayResetsAreTheRestart(run, k - 1, d, t);
      LastStep(run, k, d, t);
      MinuteStep(run, k - 1, t);
    }
  }

  function Within(x: int, low: int, high: int): int { if x < low then low else if x > high then high else x }

  /** In closed form: the minutes of the day so far, without the first of all and the restart. */
  lemma {:induction false} StepsClosed(k: nat, d: nat, restart: int)
    ensures var from := if d == 0 then 1 else MINUTES_PER_DAY * d;
            Steps(k, d, restart)
            == Within(k, from, MINUTES_PER_DAY * (d + 1)) - from
               - if from <= restart < Within(k, from, MINUTES_PER_DAY * (d + 1)) then 1 else 0
  {
    if k > 1 { StepsClosed(k - 1, d, restart); }
  }

  // ----- a sorted series is its own series ------------------------------------------------

  lemma {:induction false} OneMetric(xs: seq<Reading>, metric: string)
    requires forall i :: 0 <= i < |xs| ==> xs[i].metric == metric
    ensures OfMetric(xs, metric) == xs
    ensures xs != [] ==> MetricsIn(xs) == [metric]
  {
    if xs != [] {
      var before := xs[..|xs| - 1];
      assert forall i :: 0 <= i < |before| ==> before[i] == xs[i];
      OneMetric(before, metric);
      assert xs == before + [xs[|xs| - 1]];
    }
  }

  lemma RunIsItsSeries(run: Run, k: nat, t: Trig)
    requires run.Valid()
    ensures Series(run.Samples(k, t), run.metric) == run.Samples(k, t)
    ensures k > 0 ==> MetricsIn(run.Samples(k, t)) == [run.metric]
  {
    hide ValueAt;
    OneMetric(run.Samples(k, t), run.metric);
    SortedStays(run.Samples(k, t), NotLater);
  }

  // ----- the naive figure -------------------------------------------------------------------

  lemma {:induction false} GrowsUntil(run: Run, m: int, n: int, t: Trig)
    requires run.Valid() && 0 <= m <= n
    requires n < run.Restart() || m >= run.Restart()
    ensures run.Value(m, t) <= run.Value(n, t)
    decreases n - m
  {
    if m < n {
      GrowsUntil(run, m, n - 1, t);
      MinuteStep(run, n, t);
    }
  }

  lemma Scales(rate: real, a: int, b: int)
    requires rate > 0.0 && a <= b
    ensures rate * a as real <= rate * b as real
  {
    assert (b - a) as real == b as real - a as real;
    assert rate * (b as real - a as real) >= 0.0;
  }

  lemma AfterRestart(run: Run, m: int, t: Trig)
    requires run.Valid() && m >= run.Restart()
    ensures run.Value(m, t) == run.rate * (m - run.Restart()) as real / 1440.0
  {
    SinceRestart(run, m, t);
    hide ValueAt, Run.Value;
    assert (m - run.Restart()) as real == m as real - run.Restart() as real;
    assert run.rate * (m - run.Restart()) as real == run.rate * m as real - run.rate * run.Restart() as real;
  }

  /** The most the counter ever shows on the restart day is the minute before the restart. */
  lemma PeakBeforeRestart(run: Run, m: int, t: Trig)
    requires run.Valid() && run.Restart() - 720 <= m < run.Restart() + 720
    ensures 0.0 <= run.Value(m, t) <= run.Value(run.Restart() - 1, t)
  {
    hide ValueAt, Run.Value;
    NeverNegative(run, m, t);
    if m < run.Restart() {
      GrowsUntil(run, m, run.Restart() - 1, t);
    } else {
      AfterRestart(run, m, t);
      SinceRestart(run, run.Restart() - 1, t);
      Scales(run.rate, m - run.Restart(), run.Restart() - 1);
    }
  }

  lemma RestartDayMinutes(run: Run, m: int)
    requires run.Valid() && UtcDay(run.start + m * MINUTE_MS) == DayOfRun(run, run.spanDays / 2)
    ensures run.Restart() - 720 <= m < run.Restart() + 720
  {
    SampleDay(run, m);
  }

  lemma RestartDayRange(run: Run, t: Trig)
    requires run.Valid()
    ensures var xs := run.Samples(run.spanDays * MINUTES_PER_DAY, t);
            Naive(xs, DayOfRun(run, run.spanDays / 2)) == run.Value(run.Restart() - 1, t)
  {
    hide ValueAt, Run.Value, Run.Samples, DayRange, UtcDay, DayOfRun;
    var k, restart := run.spanDays * MINUTES_PER_DAY, run.Restart();
    var xs, day := run.Samples(k, t), DayOfRun(run, run.spanDays / 2);
    assert xs[restart] == run.Sample(restart, t) && xs[restart - 1] == run.Sample(restart - 1, t);
    SampleDay(run, restart);
    SampleDay(run, restart - 1);
    NaiveIsTheSpread(xs, day);
    NeverNegative(run, restart, t);
    var range := DayRange(xs, day).value;
    var i :| 0 <= i < |xs| && UtcDay(xs[i].time) == day && xs[i].value == range.min;
    var j :| 0 <= j < |xs| && UtcDay(xs[j].time) == day && xs[j].value == range.max;
    RestartDayMinutes(run, i);
    RestartDayMinutes(run, j);
    PeakBeforeRestart(run, i, t);
    PeakBeforeRestart(run, j, t);
  }

  // ----- the closed form ----------------------------------------------------------------------

  lemma RestartDayNaive(run: Run, t: Trig)
    requires run.Valid()
    ensures Naive(run.Samples(run.spanDays * MINUTES_PER_DAY, t), DayOfRun(run, run.spanDays / 2))
         == run.offset + run.rate * (run.Restart() - 1) as real / 1440.0
  {
    SinceRestart(run, run.Restart() - 1, t);
    hide Run.Value, Run.Samples, Naive, ValueAt, DayOfRun;
    RestartDayRange(run, t);
  }

  /** In a series on its own, the day of any reading but the first has a row. */
  lemma DayHasItsRow(metric: string, xs: seq<Reading>, i: nat)
    requires 1 <= i < |xs| && Series(xs, metric) == xs && MetricsIn(xs) == [metric]
    ensures EnergyRowOf(metric, xs, UtcDay(xs[i].time)) in EnergyTable(xs, MetricsIn(xs))
  {
    hide EnergyTable, StepDays, DayEnergy, DayResets, Naive, UtcDay, Series, MetricsIn;
    StepDaysCover(xs);
    TableRows(xs, [metric], EnergyRowOf(metric, xs, UtcDay(xs[i].time)));
  }

  lemma DayInClosedForm(run: Run, d: nat, t: Trig)
    requires run.Valid() && d < run.spanDays
    ensures DayEnergy(run.Samples(run.spanDays * MINUTES_PER_DAY, t), DayOfRun(run, d))
         == if d == 0 || d == run.spanDays / 2 then run.rate * 1439.0 / 1440.0 else run.rate
    ensures DayResets(run.Samples(run.spanDays * MINUTES_PER_DAY, t), DayOfRun(run, d))
         == if d == run.spanDays / 2 then 1 else 0
  {
    hide ValueAt, Run.Value, Run.Samples, DayEnergy, DayResets, DayOfRun, Steps, Copies;
    var k := run.spanDays * MINUTES_PER_DAY;
    DayEnergyIsSteps(run, k, d, t);
    DayResetsAreTheRestart(run, k, d, t);
    StepsClosed(k, d, run.Restart());
    assert Steps(k, d, run.Restart()) == if d == 0 || d == run.spanDays / 2 then 1439 else 1440;
    CopiesMultiply(1439, run.rate / 1440.0);
    CopiesMultiply(1440, run.rate / 1440.0);
  }

  /**
   * Day 0 misses the step into its first minute and the restart day the step of the
   * restart; every other day is the full rate. The naive figure of the restart day is
   * everything the counter had ever recorded.
   */
  lemma ClosedForm(run: Run, d: nat, t: Trig)
    requires run.Valid() && d < run.spanDays
    ensures var rows := run.Samples(run.spanDays * MINUTES_PER_DAY, t);
            var row := EnergyRowOf(run.metric, Series(rows, run.metric), DayOfRun(run, d));
            && row in EnergyTable(rows, MetricsIn(rows))
            && row.energy == (if d == 0 || d == run.spanDays / 2 then run.rate * 1439.0 / 1440.0 else run.rate)
            && row.resets == (if d == run.spanDays / 2 then 1 else 0)
            && (d == run.spanDays / 2 ==> row.naive == run.offset + run.rate * (run.Restart() - 1) as real / 1440.0)
  {
    hide ValueAt, Run.Value, Run.Samples, DayEnergy, DayResets, Naive, EnergyTable, DayOfRun, UtcDay, Series, MetricsIn;
    var rows, last := run.Samples(run.spanDays * MINUTES_PER_DAY, t), MINUTES_PER_DAY * d + 1439;
    RunIsItsSeries(run, run.spanDays * MINUTES_PER_DAY, t);
    assert rows[last] == run.Sample(last, t);
    SampleDay(run, last);
    DayHasItsRow(run.metric, rows, last);
    DayInClosedForm(run, d, t);
    RestartDayNaive(run, t);
  }

  // ----- the fixture's counter is such a run ----------------------------------------------------

  lemma {:induction false} LowerKeeps(s: string)
    requires forall i :: 0 <= i < |s| ==> !('A' <= s[i] <= 'Z')
    ensures LowerAll(s) == s
  {
    if s != "" { LowerKeeps(s[1..]); }
  }

  lemma {:induction false} MissingLetter(s: string, part: string, c: char)
    requires c !in s && c in part
    ensures !Contains(s, part) && !ContainsEnding(s, part)
  {
    if s != "" { MissingLetter(s[1..], part, c); }
  }

  lemma RestartMetricIsLifetime()
    ensures !IsDailyCounter(RESTART_METRIC)
  {
    NoDayInName(RESTART_METRIC);
  }

  lemma NoDayInName(key: string)
    requires key != "" && 'd' !in key && forall i :: 0 <= i < |key| ==> !('A' <= key[i] <= 'Z')
    ensures !IsDailyCounter(key)
  {
    hide LowerAll, Contains, ContainsEnding;
    LowerKeeps(key);
    assert "_day_"[1] == 'd' && "daily"[0] == 'd' && ".day"[1] == 'd';
    MissingLetter(key, "_day_", 'd');
    MissingLetter(key, "daily", 'd');
    MissingLetter(key, ".day", 'd');
    assert "day_"[0] == 'd' && key[0] in key;
  }

  /** What `assignShapes` gives the restarting counter is a valid run for every span of two days or more. */
  lemma SeededRestartIsARun(index: nat, spanDays: nat, start: int)
    requires spanDays >= 2 && start % DAY_MS == 0
    ensures var shape := ShapeFor(Metric(RESTART_METRIC, Some("kWh")), index, RestartMinute(spanDays));
            shape.Counter? && var run := Run(RESTART_METRIC, start, shape.ratePerDay, shape.offset, spanDays);
                              run.Valid() && run.Shape() == shape
  {
    RestartMetricIsLifetime();
  }
}
