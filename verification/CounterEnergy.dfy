/**
 * Energy across counter resets, after packages/db/src/counter-energy.ts: readings
 * grouped by metric and sorted, a step's energy credited to the day of its later
 * reading, and every point where a counter went backwards.
 */
module CounterEnergy {
  import opened Wrappers
  import opened Database
  import opened Spans
  import opened Sorting

  datatype Reading = Reading(metric: string, time: int, value: real)

  datatype EnergyRow = EnergyRow(metric: string, day: int, energy: real, naive: real, resets: nat)

  datatype RestartRow = RestartRow(metric: string, at: int, valueBefore: real, valueAfter: real)

  function Max0(x: real): real { if x > 0.0 then x else 0.0 }

  function UtcDay(time: int): int { time / DAY_MS }

  /** A counter that went backwards has reset: the step is whatever it reads now. */
  function CounterIncrement(prev: real, next: real): (step: real)
    ensures step >= 0.0 && step <= Max0(next)
  {
    var from, end := Max0(prev), Max0(next);
    if end < from then end else end - from
  }

  // ----- grouping and sorting ------------------------------------------------------

  function OfMetric(rows: seq<Reading>, metric: string): seq<Reading> {
    if rows == [] then []
    else
      var before, r := OfMetric(rows[..|rows| - 1], metric), rows[|rows| - 1];
      if r.metric == metric then before + [r] else before
  }

  predicate NotLater(a: Reading, b: Reading) { a.time <= b.time }

  /** The readings of one metric in time order; readings of one instant keep theirs. */
  function Series(rows: seq<Reading>, metric: string): seq<Reading> { StableSort(OfMetric(rows, metric), NotLater) }

  function MetricsIn(rows: seq<Reading>): seq<string> {
    if rows == [] then []
    else
      var before, metric := MetricsIn(rows[..|rows| - 1]), rows[|rows| - 1].metric;
      if metric in before then before else before + [metric]
  }

  /** Each reading appended to its metric's list. */
  method GroupRows(rows: seq<Reading>) returns (groups: map<string, seq<Reading>>, metrics: seq<string>)
    ensures metrics == MetricsIn(rows) && groups.Keys == set m | m in metrics
    ensures forall m :: m in groups ==> groups[m] == OfMetric(rows, m)
  {
    groups, metrics := map[], [];
    for i := 0 to |rows|
      invariant metrics == MetricsIn(rows[..i]) && groups.Keys == set m | m in metrics
      invariant forall m :: m in groups ==> groups[m] == OfMetric(rows[..i], m)
      invariant forall m :: m !in groups ==> OfMetric(rows[..i], m) == []
    {
      var row := rows[i];
      assert rows[..i + 1][..i] == rows[..i];
      if row.metric in groups {
        groups := groups[row.metric := groups[row.metric] + [row]];
      } else {
        groups := groups[row.metric := [row]];
        metrics := metrics + [row.metric];
      }
    }
    assert rows[..|rows|] == rows;
  }

  /** Grouped, then every list sorted in place. */
  method ByMetric(rows: seq<Reading>) returns (groups: map<string, seq<Reading>>, metrics: seq<string>)
    ensures metrics == MetricsIn(rows) && groups.Keys == set m | m in metrics
    ensures forall m :: m in groups ==> groups[m] == Series(rows, m)
  {
    groups, metrics := GroupRows(rows);
    MetricsDistinct(rows);
    hide OfMetric, StableSort, MetricsIn;
    for i := 0 to |metrics|
      invariant groups.Keys == set m | m in metrics
      invariant forall j :: 0 <= j < i ==> groups[metrics[j]] == Series(rows, metrics[j])
      invariant forall j :: i <= j < |metrics| ==> groups[metrics[j]] == OfMetric(rows, metrics[j])
    {
      groups := groups[metrics[i] := StableSort(groups[metrics[i]], NotLater)];
    }
  }

  lemma {:induction false} MetricsDistinct(rows: seq<Reading>)
    ensures Distinct(MetricsIn(rows))
  {
    if rows != [] { MetricsDistinct(rows[..|rows| - 1]); }
  }

  // ----- the energy of a day ----------------------------------------------------------

  /** The step that ends at `xs[i]`, if it ends on `day`. */
  function DayEnergy(xs: seq<Reading>, day: int): real {
    if |xs| <= 1 then 0.0
    else
      var prev, next := xs[|xs| - 2], xs[|xs| - 1];
      DayEnergy(xs[..|xs| - 1], day)
      + if UtcDay(next.time) == day then CounterIncrement(prev.value, next.value) else 0.0
  }

  function DayResets(xs: seq<Reading>, day: int): nat {
    if |xs| <= 1 then 0
    else
      var prev, next := xs[|xs| - 2], xs[|xs| - 1];
      DayResets(xs[..|xs| - 1], day) + if UtcDay(next.time) == day && next.value < prev.value then 1 else 0
  }

  /** The days that have a step, as they first come up. */
  function StepDays(xs: seq<Reading>): seq<int> {
    if |xs| <= 1 then []
    else
      var before, day := StepDays(xs[..|xs| - 1]), UtcDay(xs[|xs| - 1].time);
      if day in before then before else before + [day]
  }

  datatype Range = Range(min: real, max: real)

  function DayRange(xs: seq<Reading>, day: int): Option<Range> {
    if xs == [] then None
    else
      var before, r := DayRange(xs[..|xs| - 1], day), xs[|xs| - 1];
      if UtcDay(r.time) != day then before
      else match before
        case None => Some(Range(r.value, r.value))
        case Some(seen) =>
          Some(Range(if r.value < seen.min then r.value else seen.min,
                     if r.value > seen.max then r.value else seen.max))
  }

  /** `max - min` of the day, or nothing. */
  function Naive(xs: seq<Reading>, day: int): real {
    match DayRange(xs, day)
    case None => 0.0
    case Some(range) => range.max - range.min
  }

  function EnergyRowOf(metric: string, xs: seq<Reading>, day: int): EnergyRow {
    EnergyRow(metric, day, DayEnergy(xs, day), Naive(xs, day), DayResets(xs, day))
  }

  function EnergyRows(metric: string, xs: seq<Reading>, days: seq<int>): (rows: seq<EnergyRow>)
    ensures |rows| == |days| && forall i :: 0 <= i < |rows| ==> rows[i] == EnergyRowOf(metric, xs, days[i])
  {
    if days == [] then [] else EnergyRows(metric, xs, days[..|days| - 1]) + [EnergyRowOf(metric, xs, days[|days| - 1])]
  }

  function EnergyTable(rows: seq<Reading>, metrics: seq<string>): seq<EnergyRow> {
    if metrics == [] then []
    else
      var metric := metrics[|metrics| - 1];
      EnergyTable(rows, metrics[..|metrics| - 1])
          + EnergyRows(metric, Series(rows, metric), StepDays(Series(rows, metric)))
  }

  /** The row objects after the steps of `xs`: one for each day that has had a step. */
  ghost predicate Accumulated(days: map<int, EnergyRow>, order: seq<int>, metric: string, xs: seq<Reading>) {
    && order == StepDays(xs) && days.Keys == (set d | d in order)
    && (forall d :: d in days ==> days[d] == EnergyRow(metric, d, DayEnergy(xs, d), 0.0, DayResets(xs, d)))
    && (forall d :: d !in days ==> DayEnergy(xs, d) == 0.0 && DayResets(xs, d) == 0)
  }

  lemma StepUpdates(days: map<int, EnergyRow>, order: seq<int>, metric: string, xs: seq<Reading>)
    requires |xs| > 1 && Accumulated(days, order, metric, xs[..|xs| - 1])
    ensures var prev, next := xs[|xs| - 2], xs[|xs| - 1];
            var day := UtcDay(next.time);
            var row := if day in days then days[day] else EnergyRow(metric, day, 0.0, 0.0, 0);
            Accumulated(days[day := row.(energy := row.energy + CounterIncrement(prev.value, next.value),
                                         resets := row.resets + if next.value < prev.value then 1 else 0)],
                        if day in days then order else order + [day], metric, xs)
  {
  }

  /** A row object a day, created on its first step and updated in place. */
  method IncrementsByDay(metric: string, xs: seq<Reading>) returns (days: map<int, EnergyRow>, order: seq<int>)
    ensures order == StepDays(xs) && days.Keys == set d | d in order
    ensures forall d :: d in days ==> days[d] == EnergyRow(metric, d, DayEnergy(xs, d), 0.0, DayResets(xs, d))
  {
    hide Accumulated, DayEnergy, DayResets, StepDays, CounterIncrement;
    days, order := map[], [];
    NothingAccumulated(metric, xs[..if |xs| == 0 then 0 else 1]);
    var i := 1;
    while i < |xs|
      invariant 1 <= i && (i <= |xs| || (|xs| == 0 && i == 1))
      invariant Accumulated(days, order, metric, xs[..if |xs| == 0 then 0 else i])
    {
      var prev, next := xs[i - 1], xs[i];
      assert xs[..i + 1][..i] == xs[..i];
      StepUpdates(days, order, metric, xs[..i + 1]);
      var day := UtcDay(next.time);
      var row := EnergyRow(metric, day, 0.0, 0.0, 0);
      if day in days { row := days[day]; } else { order := order + [day]; }
      row := row.(energy := row.energy + CounterIncrement(prev.value, next.value),
                  resets := row.resets + if next.value < prev.value then 1 else 0);
      days := days[day := row];
      i := i + 1;
    }
    assert xs[..|xs|] == xs;
    AccumulatedRows(days, order, metric, xs);
  }

  lemma NothingAccumulated(metric: string, xs: seq<Reading>)
    requires |xs| <= 1
    ensures Accumulated(map[], [], metric, xs)
  {
  }

  lemma AccumulatedRows(days: map<int, EnergyRow>, order: seq<int>, metric: string, xs: seq<Reading>)
    requires Accumulated(days, order, metric, xs)
    ensures order == StepDays(xs) && days.Keys == set d | d in order
    ensures forall d :: d in days ==> days[d] == EnergyRow(metric, d, DayEnergy(xs, d), 0.0, DayResets(xs, d))
  {
  }

  method NaiveByDay(xs: seq<Reading>) returns (values: map<int, real>)
    ensures forall d :: (d in values <==> DayRange(xs, d).Some?) && (d in values ==> values[d] == Naive(xs, d))
  {
    var seen: map<int, Range> := map[];
    for i := 0 to |xs|
      invariant forall d ::
            (d in seen <==> DayRange(xs[..i], d).Some?) && (d in seen ==> DayRange(xs[..i], d) == Some(seen[d]))
    {
      assert xs[..i + 1][..i] == xs[..i];
      var day, value := UtcDay(xs[i].time), xs[i].value;
      if day !in seen {
        seen := seen[day := Range(value, value)];
      } else {
        var range := seen[day];
        var min := if value < range.min then value else range.min;
        var max := if value > range.max then value else range.max;
        seen := seen[day := Range(min, max)];
      }
    }
    assert xs[..|xs|] == xs;
    values := map d | d in seen :: seen[d].max - seen[d].min;
  }

  /** By metric, in the locale's collation, and then by day. */
  function EnergyOrder(collate: string -> real): (EnergyRow, EnergyRow) -> bool {
    (a: EnergyRow, b: EnergyRow) =>
      collate(a.metric) < collate(b.metric) || (collate(a.metric) == collate(b.metric) && a.day <= b.day)
  }

  method PerDayEnergy(rows: seq<Reading>, collate: string -> real) returns (out: seq<EnergyRow>)
    ensures out == StableSort(EnergyTable(rows, MetricsIn(rows)), EnergyOrder(collate))
  {
    hide Series, StableSort, DayEnergy, DayResets, StepDays, DayRange;
    var groups, metrics := ByMetric(rows);
    out := [];
    for i := 0 to |metrics|
      invariant out == EnergyTable(rows, metrics[..i])
    {
      var metric := metrics[i];
      assert metrics[..i + 1][..i] == metrics[..i];
      assert metric in groups;
      var xs := groups[metric];
      var days, order := IncrementsByDay(metric, xs);
      var naive := NaiveByDay(xs);
      var mine := WithNaive(metric, xs, days, order, naive);
      out := out + mine;
    }
    assert metrics[..|metrics|] == metrics;
    out := StableSort(out, EnergyOrder(collate));
  }

  method WithNaive(metric: string, xs: seq<Reading>, days: map<int, EnergyRow>, order: seq<int>, naive: map<int, real>)
    returns (out: seq<EnergyRow>)
    requires days.Keys == set d | d in order
    requires forall d :: d in days ==> days[d] == EnergyRow(metric, d, DayEnergy(xs, d), 0.0, DayResets(xs, d))
    requires forall d :: (d in naive <==> DayRange(xs, d).Some?) && (d in naive ==> naive[d] == Naive(xs, d))
    ensures out == EnergyRows(metric, xs, order)
  {
    hide DayEnergy, DayResets, DayRange;
    out := [];
    for j := 0 to |order|
      invariant out == EnergyRows(metric, xs, order[..j])
    {
      assert order[..j + 1][..j] == order[..j];
      assert order[j] in days;
      out := out + [days[order[j]].(naive := if order[j] in naive then naive[order[j]] else 0.0)];
    }
    assert order[..|order|] == order;
  }

  // ----- restarts -----------------------------------------------------------------------

  function Restarts(metric: string, xs: seq<Reading>): seq<RestartRow> {
    if |xs| <= 1 then []
    else
      var prev, next := xs[|xs| - 2], xs[|xs| - 1];
      Restarts(metric, xs[..|xs| - 1])
      + if next.value < prev.value then [RestartRow(metric, next.time, prev.value, next.value)] else []
  }

  function RestartTable(rows: seq<Reading>, metrics: seq<string>): seq<RestartRow> {
    if metrics == [] then []
    else
      var metric := metrics[|metrics| - 1];
      RestartTable(rows, metrics[..|metrics| - 1]) + Restarts(metric, Series(rows, metric))
  }

  function RestartOrder(collate: string -> real): (RestartRow, RestartRow) -> bool {
    (a: RestartRow, b: RestartRow) =>
      collate(a.metric) < collate(b.metric) || (collate(a.metric) == collate(b.metric) && a.at <= b.at)
  }

  method DescribeRestarts(rows: seq<Reading>, collate: string -> real) returns (out: seq<RestartRow>)
    ensures out == StableSort(RestartTable(rows, MetricsIn(rows)), RestartOrder(collate))
  {
    hide Series, StableSort;
    var groups, metrics := ByMetric(rows);
    out := [];
    for i := 0 to |metrics|
      invariant out == RestartTable(rows, metrics[..i])
    {
      assert metrics[..i + 1][..i] == metrics[..i];
      assert metrics[i] in groups;
      var mine := RestartsOf(metrics[i], groups[metrics[i]]);
      out := out + mine;
    }
    assert metrics[..|metrics|] == metrics;
    out := StableSort(out, RestartOrder(collate));
  }

  method RestartsOf(metric: string, xs: seq<Reading>) returns (out: seq<RestartRow>)
    ensures out == Restarts(metric, xs)
  {
    out := [];
    var j := 1;
    while j < |xs|
      invariant 1 <= j && (j <= |xs| || (|xs| == 0 && j == 1))
      invariant out == if |xs| == 0 then [] else Restarts(metric, xs[..j])
    {
      var prev, next := xs[j - 1], xs[j];
      assert xs[..j + 1][..j] == xs[..j];
      if next.value < prev.value { out := out + [RestartRow(metric, next.time, prev.value, next.value)]; }
      j := j + 1;
    }
    assert |xs| > 0 ==> xs[..j] == xs;
  }

  // ----- conservation ---------------------------------------------------------------------

  function TotalEnergy(xs: seq<Reading>): real {
    if |xs| <= 1 then 0.0
    else TotalEnergy(xs[..|xs| - 1]) + CounterIncrement(xs[|xs| - 2].value, xs[|xs| - 1].value)
  }

  function LostAtRestarts(restarts: seq<RestartRow>): real {
    if restarts == [] then 0.0
    else LostAtRestarts(restarts[..|restarts| - 1]) + Max0(restarts[|restarts| - 1].valueBefore)
  }

  function EnergyOver(xs: seq<Reading>, days: seq<int>): real {
    if days == [] then 0.0 else EnergyOver(xs, days[..|days| - 1]) + DayEnergy(xs, days[|days| - 1])
  }

  function ResetsOver(xs: seq<Reading>, days: seq<int>): nat {
    if days == [] then 0 else ResetsOver(xs, days[..|days| - 1]) + DayResets(xs, days[|days| - 1])
  }

  /** What goes in at the last reading, what was there at the first, and what each restart threw away. */
  lemma {:induction false} TotalIsTelescope(metric: string, xs: seq<Reading>)
    requires xs != []
    ensures TotalEnergy(xs) == Max0(xs[|xs| - 1].value) - Max0(xs[0].value) + LostAtRestarts(Restarts(metric, xs))
  {
    if |xs| > 1 {
      TotalIsTelescope(metric, xs[..|xs| - 1]);
      var before, all := Restarts(metric, xs[..|xs| - 1]), Restarts(metric, xs);
      if xs[|xs| - 1].value < xs[|xs| - 2].value { assert all[..|all| - 1] == before; } else { assert all == before; }
    }
  }

  /** One more reading changes the figures of exactly one of a set of days. */
  lemma {:induction false} StepLandsOnce(xs: seq<Reading>, days: seq<int>)
    requires |xs| > 1 && Distinct(days)
    ensures var before, day := xs[..|xs| - 1], UtcDay(xs[|xs| - 1].time);
            var inc := CounterIncrement(xs[|xs| - 2].value, xs[|xs| - 1].value);
            && EnergyOver(xs, days) == EnergyOver(before, days) + (if day in days then inc else 0.0)
            && ResetsOver(xs, days) == ResetsOver(before, days)
               + if day in days && xs[|xs| - 1].value < xs[|xs| - 2].value then 1 else 0
  {
    if days != [] {
      var fewer, last := days[..|days| - 1], days[|days| - 1];
      assert days == fewer + [last];
      assert last !in fewer;
      StepLandsOnce(xs, fewer);
    }
  }

  lemma {:induction false} NoStepNoEnergy(xs: seq<Reading>, days: seq<int>)
    requires |xs| <= 1
    ensures EnergyOver(xs, days) == 0.0 && ResetsOver(xs, days) == 0
  {
    if days != [] { NoStepNoEnergy(xs, days[..|days| - 1]); }
  }

  predicate StepsIn(xs: seq<Reading>, days: seq<int>) { forall i :: 1 <= i < |xs| ==> UtcDay(xs[i].time) in days }

  lemma {:induction false} DaysAddUp(metric: string, xs: seq<Reading>, days: seq<int>)
    requires Distinct(days) && StepsIn(xs, days)
    ensures EnergyOver(xs, days) == TotalEnergy(xs) && ResetsOver(xs, days) == |Restarts(metric, xs)|
  {
    if |xs| > 1 {
      DaysAddUp(metric, xs[..|xs| - 1], days);
      StepLandsOnce(xs, days);
      assert xs[|xs| - 1] == xs[|xs| - 1] && UtcDay(xs[|xs| - 1].time) in days;
    } else {
      NoStepNoEnergy(xs, days);
    }
  }

  lemma {:induction false} StepDaysCover(xs: seq<Reading>)
    ensures Distinct(StepDays(xs)) && StepsIn(xs, StepDays(xs))
    ensures forall d :: d in StepDays(xs) ==> exists i :: 1 <= i < |xs| && UtcDay(xs[i].time) == d
  {
    if |xs| > 1 {
      var before := xs[..|xs| - 1];
      StepDaysCover(before);
      assert forall i :: 0 <= i < |before| ==> before[i] == xs[i];
      forall d | d in StepDays(xs) ensures exists i :: 1 <= i < |xs| && UtcDay(xs[i].time) == d {
        if d in StepDays(before) {
          var i :| 1 <= i < |before| && UtcDay(before[i].time) == d;
          assert UtcDay(xs[i].time) == d;
        }
      }
    }
  }

  function SumEnergy(rows: seq<EnergyRow>): real {
    if rows == [] then 0.0 else SumEnergy(rows[..|rows| - 1]) + rows[|rows| - 1].energy
  }

  function SumResets(rows: seq<EnergyRow>): nat {
    if rows == [] then 0 else SumResets(rows[..|rows| - 1]) + rows[|rows| - 1].resets
  }

  lemma {:induction false} RowsAddUp(metric: string, xs: seq<Reading>, days: seq<int>)
    ensures SumEnergy(EnergyRows(metric, xs, days)) == EnergyOver(xs, days)
    ensures SumResets(EnergyRows(metric, xs, days)) == ResetsOver(xs, days)
  {
    if days != [] {
      RowsAddUp(metric, xs, days[..|days| - 1]);
      var rows := EnergyRows(metric, xs, days);
      assert rows[..|rows| - 1] == EnergyRows(metric, xs, days[..|days| - 1]);
    }
  }

  /**
   * Conservation, for any series: the daily energies add up to the net change plus
   * whatever the restarts discarded, and the daily resets are the restarts.
   */
  lemma EnergyIsConserved(metric: string, xs: seq<Reading>)
    ensures SumResets(EnergyRows(metric, xs, StepDays(xs))) == |Restarts(metric, xs)|
    ensures xs != [] ==>
              SumEnergy(EnergyRows(metric, xs, StepDays(xs)))
              == Max0(xs[|xs| - 1].value) - Max0(xs[0].value) + LostAtRestarts(Restarts(metric, xs))
  {
    hide CounterIncrement, Max0, SumEnergy, SumResets, LostAtRestarts, EnergyRows, StepDays;
    StepDaysCover(xs);
    DaysAddUp(metric, xs, StepDays(xs));
    RowsAddUp(metric, xs, StepDays(xs));
    if xs != [] { TotalIsTelescope(metric, xs); }
  }

  /** The naive figure is the spread of the day's readings, both ends attained. */
  lemma {:induction false} NaiveIsTheSpread(xs: seq<Reading>, day: int)
    ensures DayRange(xs, day).None? <==> forall i :: 0 <= i < |xs| ==> UtcDay(xs[i].time) != day
    ensures DayRange(xs, day).Some? ==>
              var range := DayRange(xs, day).value;
              && (forall i :: 0 <= i < |xs| && UtcDay(xs[i].time) == day ==> range.min <= xs[i].value <= range.max)
              && (exists i :: 0 <= i < |xs| && UtcDay(xs[i].time) == day && xs[i].value == range.min)
              && (exists i :: 0 <= i < |xs| && UtcDay(xs[i].time) == day && xs[i].value == range.max)
  {
    if xs != [] {
      var before, last := xs[..|xs| - 1], xs[|xs| - 1];
      NaiveIsTheSpread(before, day);
      assert forall i :: 0 <= i < |before| ==> before[i] == xs[i];
      if DayRange(before, day).Some? {
        var range := DayRange(before, day).value;
        var i :| 0 <= i < |before| && UtcDay(before[i].time) == day && before[i].value == range.min;
        var j :| 0 <= j < |before| && UtcDay(before[j].time) == day && before[j].value == range.max;
        assert xs[i].value == range.min && xs[j].value == range.max;
      }
      if UtcDay(last.time) == day { assert xs[|xs| - 1].value == last.value; }
    }
  }

  // ----- the order of the input -----------------------------------------------------------

  /** No metric has two readings at one instant. */
  predicate DistinctTimes(rows: seq<Reading>) {
    forall i, j :: 0 <= i < j < |rows| ==> !(rows[i].metric == rows[j].metric && rows[i].time == rows[j].time)
  }

  lemma {:induction false} OfMetricTimes(rows: seq<Reading>, metric: string, r: Reading)
    ensures multiset(OfMetric(rows, metric))[r] == if r.metric == metric then multiset(rows)[r] else 0
  {
    if rows != [] {
      OfMetricTimes(rows[..|rows| - 1], metric, r);
      assert rows == rows[..|rows| - 1] + [rows[|rows| - 1]];
    }
  }

  lemma {:induction false} OfMetricDistinct(rows: seq<Reading>, metric: string)
    requires DistinctTimes(rows)
    ensures forall i ::
          0 <= i < |OfMetric(rows, metric)| ==>
              OfMetric(rows, metric)[i] in rows && OfMetric(rows, metric)[i].metric == metric
    ensures DistinctTimes(OfMetric(rows, metric))
  {
    if rows != [] {
      var before, last := rows[..|rows| - 1], rows[|rows| - 1];
      assert forall i :: 0 <= i < |before| ==> before[i] == rows[i];
      OfMetricDistinct(before, metric);
      var mine := OfMetric(before, metric);
      forall i | 0 <= i < |mine| ensures mine[i] in rows
          && !(mine[i].metric == last.metric && mine[i].time == last.time) {
        var j :| 0 <= j < |before| && before[j] == mine[i];
        assert rows[j] == mine[i];
      }
    }
  }

  /** The readings of one metric are told apart by their times. */
  lemma TimesSeparate(rows: seq<Reading>, metric: string)
    requires DistinctTimes(rows)
    ensures Separates(OfMetric(rows, metric), NotLater)
  {
    hide OfMetric;
    OfMetricDistinct(rows, metric);
    var mine := OfMetric(rows, metric);
    forall i, j | 0 <= i < |mine| && 0 <= j < |mine| && NotLater(mine[i], mine[j]) && NotLater(mine[j], mine[i])
      ensures mine[i] == mine[j]
    {
      assert mine[i].metric == mine[j].metric && mine[i].time == mine[j].time;
    }
  }

  lemma SeriesIsOrderFree(x: seq<Reading>, y: seq<Reading>, metric: string)
    requires multiset(x) == multiset(y) && DistinctTimes(x)
    ensures Series(x, metric) == Series(y, metric)
  {
    var mine, theirs := OfMetric(x, metric), OfMetric(y, metric);
    forall r ensures multiset(mine)[r] == multiset(theirs)[r] {
      OfMetricTimes(x, metric, r);
      OfMetricTimes(y, metric, r);
    }
    TimesSeparate(x, metric);
    SortIsOrderFree(mine, theirs, NotLater);
  }

  lemma {:induction false} MetricsAre(rows: seq<Reading>, metric: string)
    ensures metric in MetricsIn(rows) <==> OfMetric(rows, metric) != []
  {
    if rows != [] { MetricsAre(rows[..|rows| - 1], metric); }
  }

  /** The table has a row for a metric and a day exactly when the series has a step on that day. */
  lemma {:induction false} TableRows(rows: seq<Reading>, metrics: seq<string>, row: EnergyRow)
    ensures row in EnergyTable(rows, metrics)
       <==> row.metric in metrics && row.day in StepDays(Series(rows, row.metric))
            && row == EnergyRowOf(row.metric, Series(rows, row.metric), row.day)
  {
    if metrics != [] {
      var metric := metrics[|metrics| - 1];
      var xs := Series(rows, metric);
      TableRows(rows, metrics[..|metrics| - 1], row);
      var mine := EnergyRows(metric, xs, StepDays(xs));
      if row in mine {
        var i :| 0 <= i < |mine| && mine[i] == row;
        assert StepDays(xs)[i] == row.day;
      }
      if row.metric == metric && row.day in StepDays(xs) && row == EnergyRowOf(metric, xs, row.day) {
        var i :| 0 <= i < |StepDays(xs)| && StepDays(xs)[i] == row.day;
        assert mine[i] == row;
      }
    }
  }

  lemma {:induction false} RestartsNamed(metric: string, xs: seq<Reading>, row: RestartRow)
    requires row in Restarts(metric, xs)
    ensures row.metric == metric
  {
    if row in Restarts(metric, xs[..|xs| - 1]) { RestartsNamed(metric, xs[..|xs| - 1], row); }
  }

  lemma {:induction false} RestartRows(rows: seq<Reading>, metrics: seq<string>, row: RestartRow)
    ensures row in RestartTable(rows, metrics)
        <==> row.metric in metrics && row in Restarts(row.metric, Series(rows, row.metric))
  {
    if metrics != [] {
      var metric := metrics[|metrics| - 1];
      RestartRows(rows, metrics[..|metrics| - 1], row);
      if row in Restarts(metric, Series(rows, metric)) { RestartsNamed(metric, Series(rows, metric), row); }
    }
  }

  lemma SameMetrics(x: seq<Reading>, y: seq<Reading>, metric: string)
    requires multiset(x) == multiset(y)
    ensures metric in MetricsIn(x) <==> metric in MetricsIn(y)
  {
    MetricsAre(x, metric);
    MetricsAre(y, metric);
    var mine, theirs := OfMetric(x, metric), OfMetric(y, metric);
    forall r ensures multiset(mine)[r] == multiset(theirs)[r] {
      OfMetricTimes(x, metric, r);
      OfMetricTimes(y, metric, r);
    }
    if mine != [] { assert mine[0] in multiset(theirs); }
    if theirs != [] { assert theirs[0] in multiset(mine); }
  }

  /** With distinct timestamps the rows do not depend on the order of the readings. */
  lemma RowsAreOrderFree(x: seq<Reading>, y: seq<Reading>)
    requires multiset(x) == multiset(y) && DistinctTimes(x)
    ensures forall row :: row in EnergyTable(x, MetricsIn(x)) <==> row in EnergyTable(y, MetricsIn(y))
    ensures forall row :: row in RestartTable(x, MetricsIn(x)) <==> row in RestartTable(y, MetricsIn(y))
  {
    forall metric ensures metric in MetricsIn(x) <==> metric in MetricsIn(y) { SameMetrics(x, y, metric); }
    forall row ensures row in EnergyTable(x, MetricsIn(x)) <==> row in EnergyTable(y, MetricsIn(y)) {
      TableRows(x, MetricsIn(x), row);
      TableRows(y, MetricsIn(y), row);
      SeriesIsOrderFree(x, y, row.metric);
    }
    forall row ensures row in RestartTable(x, MetricsIn(x)) <==> row in RestartTable(y, MetricsIn(y)) {
      RestartRows(x, MetricsIn(x), row);
      RestartRows(y, MetricsIn(y), row);
      SeriesIsOrderFree(x, y, row.metric);
    }
  }

  lemma DaysGiveDistinctRows(metric: string, xs: seq<Reading>)
    ensures Distinct(EnergyRows(metric, xs, StepDays(xs)))
    ensures forall row :: row in EnergyRows(metric, xs, StepDays(xs)) ==> row.metric == metric
  {
    StepDaysCover(xs);
    hide StepDays, DayEnergy, DayResets, Naive;
  }

  lemma EarlierRows(rows: seq<Reading>, metrics: seq<string>)
    ensures forall row :: row in EnergyTable(rows, metrics) ==> row.metric in metrics
  {
    forall row | row in EnergyTable(rows, metrics) ensures row.metric in metrics { TableRows(rows, metrics, row); }
  }

  lemma LastIsNew(metrics: seq<string>)
    requires metrics != [] && Distinct(metrics)
    ensures Distinct(metrics[..|metrics| - 1]) && metrics[|metrics| - 1] !in metrics[..|metrics| - 1]
  {
  }

  /** One row a metric and day. */
  lemma {:induction false} TableDistinct(rows: seq<Reading>, metrics: seq<string>)
    requires Distinct(metrics)
    ensures Distinct(EnergyTable(rows, metrics))
  {
    if metrics != [] {
      hide *;
      var before, metric := metrics[..|metrics| - 1], metrics[|metrics| - 1];
      var xs := Series(rows, metric);
      var earlier, mine := EnergyTable(rows, before), EnergyRows(metric, xs, StepDays(xs));
      LastIsNew(metrics);
      TableDistinct(rows, before);
      TableStep(rows, metrics);
      DaysGiveDistinctRows(metric, xs);
      EarlierRows(rows, before);
      forall i, j | 0 <= i < |earlier| && 0 <= j < |mine| ensures earlier[i] != mine[j] {
        assert earlier[i] in earlier && mine[j] in mine;
      }
      DistinctConcat(earlier, mine);
    } else {
      NoTable(rows);
    }
  }

  lemma NoTable(rows: seq<Reading>)
    ensures EnergyTable(rows, []) == []
  {
  }

  lemma TableStep(rows: seq<Reading>, metrics: seq<string>)
    requires metrics != []
    ensures var metric := metrics[|metrics| - 1];
            EnergyTable(rows, metrics)
            == EnergyTable(rows, metrics[..|metrics| - 1])
               + EnergyRows(metric, Series(rows, metric), StepDays(Series(rows, metric)))
  {
  }

  /** A series has at most one restart at an instant. */
  lemma {:induction false} RestartsAscend(metric: string, xs: seq<Reading>)
    requires forall i, j :: 0 <= i < j < |xs| ==> xs[i].time < xs[j].time
    ensures forall i, j :: 0 <= i < j < |Restarts(metric, xs)| ==>
              Restarts(metric, xs)[i].at < Restarts(metric, xs)[j].at
    ensures xs != [] ==> forall i :: 0 <= i < |Restarts(metric, xs)| ==>
              Restarts(metric, xs)[i].at <= xs[|xs| - 1].time
  {
    if |xs| > 1 {
      var before := xs[..|xs| - 1];
      assert forall i :: 0 <= i < |before| ==> before[i] == xs[i];
      RestartsAscend(metric, before);
    }
  }

  lemma SeriesAscends(rows: seq<Reading>, metric: string)
    requires DistinctTimes(rows)
    ensures forall i, j :: 0 <= i < j < |Series(rows, metric)| ==>
              Series(rows, metric)[i].time < Series(rows, metric)[j].time
  {
    OfMetricDistinct(rows, metric);
    TimesSeparate(rows, metric);
    hide OfMetric;
    assert Distinct(OfMetric(rows, metric));
    SortIsStrict(OfMetric(rows, metric), NotLater);
    assert StrictlySortedBy(Series(rows, metric), NotLater);
  }

  lemma {:induction false} RestartsDistinct(rows: seq<Reading>, metrics: seq<string>)
    requires Distinct(metrics) && DistinctTimes(rows)
    ensures Distinct(RestartTable(rows, metrics))
    ensures forall i, j :: 0 <= i < |RestartTable(rows, metrics)| && 0 <= j < |RestartTable(rows, metrics)|
              && RestartTable(rows, metrics)[i].metric == RestartTable(rows, metrics)[j].metric
              && RestartTable(rows, metrics)[i].at == RestartTable(rows, metrics)[j].at
              ==> RestartTable(rows, metrics)[i] == RestartTable(rows, metrics)[j]
  {
    if metrics != [] {
      hide Series, Restarts;
      var before, metric := metrics[..|metrics| - 1], metrics[|metrics| - 1];
      var earlier, mine := RestartTable(rows, before), Restarts(metric, Series(rows, metric));
      RestartsDistinct(rows, before);
      SeriesAscends(rows, metric);
      RestartsAscend(metric, Series(rows, metric));
      assert metrics == before + [metric] && metric !in before;
      forall j | 0 <= j < |mine| ensures mine[j].metric == metric {
        assert mine[j] in mine;
        RestartsNamed(metric, Series(rows, metric), mine[j]);
      }
      forall i | 0 <= i < |earlier| ensures earlier[i].metric != metric {
        assert earlier[i] in earlier;
        RestartRows(rows, before, earlier[i]);
      }
    }
  }

  /** The collation tells these metrics apart. */
  predicate TellsApart(collate: string -> real, metrics: seq<string>) {
    forall a, b :: a in metrics && b in metrics && collate(a) == collate(b) ==> a == b
  }

  /**
   * With distinct timestamps, and a collation that tells the metrics apart, both
   * reports are the same, row for row, for every order of the readings.
   */
  lemma ReportsAreOrderFree(x: seq<Reading>, y: seq<Reading>, collate: string -> real)
    requires multiset(x) == multiset(y) && DistinctTimes(x) && DistinctTimes(y) && TellsApart(collate, MetricsIn(x))
    ensures StableSort(EnergyTable(x, MetricsIn(x)), EnergyOrder(collate))
         == StableSort(EnergyTable(y, MetricsIn(y)), EnergyOrder(collate))
    ensures StableSort(RestartTable(x, MetricsIn(x)), RestartOrder(collate))
         == StableSort(RestartTable(y, MetricsIn(y)), RestartOrder(collate))
  {
    hide StableSort, EnergyTable, RestartTable, Series, StepDays, EnergyRowOf, Restarts, MetricsIn;
    MetricsDistinct(x);
    MetricsDistinct(y);
    RowsAreOrderFree(x, y);
    TableDistinct(x, MetricsIn(x));
    TableDistinct(y, MetricsIn(y));
    SameElements(EnergyTable(x, MetricsIn(x)), EnergyTable(y, MetricsIn(y)));
    EnergySeparates(x, collate);
    SortIsOrderFree(EnergyTable(x, MetricsIn(x)), EnergyTable(y, MetricsIn(y)), EnergyOrder(collate));
    RestartsDistinct(x, MetricsIn(x));
    RestartsDistinct(y, MetricsIn(y));
    SameElements(RestartTable(x, MetricsIn(x)), RestartTable(y, MetricsIn(y)));
    RestartsSeparate(x, collate);
    SortIsOrderFree(RestartTable(x, MetricsIn(x)), RestartTable(y, MetricsIn(y)), RestartOrder(collate));
  }

  /** Both reports are the rows of their table, ordered by metric and then by time. */
  lemma ReportsAreSorted(rows: seq<Reading>, collate: string -> real)
    ensures var table := EnergyTable(rows, MetricsIn(rows));
            var report := StableSort(table, EnergyOrder(collate));
            SortedBy(report, EnergyOrder(collate)) && multiset(report) == multiset(table)
    ensures var table := RestartTable(rows, MetricsIn(rows));
            var report := StableSort(table, RestartOrder(collate));
            SortedBy(report, RestartOrder(collate)) && multiset(report) == multiset(table)
  {
    SortSorts(EnergyTable(rows, MetricsIn(rows)), EnergyOrder(collate));
    SortSorts(RestartTable(rows, MetricsIn(rows)), RestartOrder(collate));
  }

  lemma EnergySeparates(x: seq<Reading>, collate: string -> real)
    requires TellsApart(collate, MetricsIn(x))
    ensures Separates(EnergyTable(x, MetricsIn(x)), EnergyOrder(collate))
  {
    hide EnergyTable, Series, StepDays, EnergyRowOf, MetricsIn;
    var rows, le := EnergyTable(x, MetricsIn(x)), EnergyOrder(collate);
    forall i, j | 0 <= i < |rows| && 0 <= j < |rows| && le(rows[i], rows[j]) && le(rows[j], rows[i])
      ensures rows[i] == rows[j]
    {
      TableRows(x, MetricsIn(x), rows[i]);
      TableRows(x, MetricsIn(x), rows[j]);
      assert rows[i] in rows && rows[j] in rows;
    }
  }

  lemma RestartsSeparate(x: seq<Reading>, collate: string -> real)
    requires TellsApart(collate, MetricsIn(x)) && DistinctTimes(x)
    ensures Separates(RestartTable(x, MetricsIn(x)), RestartOrder(collate))
  {
    hide RestartTable, Series, Restarts, MetricsIn;
    MetricsDistinct(x);
    RestartsDistinct(x, MetricsIn(x));
    var rows, le := RestartTable(x, MetricsIn(x)), RestartOrder(collate);
    forall i, j | 0 <= i < |rows| && 0 <= j < |rows| && le(rows[i], rows[j]) && le(rows[j], rows[i])
      ensures rows[i] == rows[j]
    {
      RestartRows(x, MetricsIn(x), rows[i]);
      RestartRows(x, MetricsIn(x), rows[j]);
      assert rows[i] in rows && rows[j] in rows;
    }
  }
}
