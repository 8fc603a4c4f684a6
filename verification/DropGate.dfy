/**
 * The drop gate of packages/db/src/backfill.ts and backfill-run.ts: what has to
 * agree between the legacy minute tier and the new one before the legacy tables may
 * be dropped (`readCoverage`, `compareCoverage`, `configLeak`).
 */
module DropGate {
  import opened Wrappers
  import opened Reals
  import opened Database
  import opened Spans

  // ----- one metric-day ----------------------------------------------------------

  datatype CoverageRow = CoverageRow(
    metric: string, day: int, legacyBuckets: nat, newBuckets: nat,
    legacyMean: Option<real>, newMean: Option<real>, newSpread: Option<real>)

  datatype Problem =
    | NothingCompared
    | NoNewBuckets(row: CoverageRow)
    | DoubleWrite(row: CoverageRow)
    | HistoryLost(row: CoverageRow)
    | MeanDiffers(row: CoverageRow)
    | Spread(row: CoverageRow)
    | ConfigLeaked(rows: nat)

  const MEAN_EPSILON := 0.000000001

  function MeanProblem(row: CoverageRow): Option<Problem> {
    match (row.legacyMean, row.newMean)
    case (Some(before), Some(after)) =>
      if Abs(before - after) > MEAN_EPSILON * MaxReal(1.0, Abs(before)) then Some(MeanDiffers(row)) else None
    case (before, after) => if before == after then None else Some(MeanDiffers(row))
  }

  function SpreadProblem(row: CoverageRow): Option<Problem> {
    match row.newSpread
    case None => None
    case Some(spread) => if spread == 0.0 then None else Some(Spread(row))
  }

  function RowProblem(row: CoverageRow): Option<Problem> {
    if row.newBuckets == 0 then Some(NoNewBuckets(row))
    else if row.newBuckets != row.legacyBuckets then
      Some(if row.newBuckets > row.legacyBuckets then DoubleWrite(row) else HistoryLost(row))
    else if MeanProblem(row).Some? then MeanProblem(row)
    else SpreadProblem(row)
  }

  function RowProblems(rows: seq<CoverageRow>): seq<Problem> {
    if rows == [] then []
    else
      var later := RowProblems(rows[1..]);
      match RowProblem(rows[0])
      case None => later
      case Some(problem) => [problem] + later
  }

  function CompareCoverage(rows: seq<CoverageRow>): seq<Problem> {
    if rows == [] then [NothingCompared] else RowProblems(rows)
  }

  function ConfigLeak(rowsInRaw: nat): seq<Problem> { if rowsInRaw == 0 then [] else [ConfigLeaked(rowsInRaw)] }

  lemma {:induction false} NoRowProblems(rows: seq<CoverageRow>)
    ensures RowProblems(rows) == [] <==> forall i :: 0 <= i < |rows| ==> RowProblem(rows[i]).None?
  {
    if rows != [] {
      NoRowProblems(rows[1..]);
      assert forall i :: 0 <= i < |rows[1..]| ==> rows[1..][i] == rows[i + 1];
      if forall i :: 0 <= i < |rows| ==> RowProblem(rows[i]).None? { assert RowProblem(rows[0]).None?; }
    }
  }

  // ----- the two minute tiers -----------------------------------------------------

  /** One value of one metric in the minute that starts at `minute`. */
  datatype Point = Point(metric: string, minute: int, value: real)

  /** A bucket of the new minute tier. */
  datatype MinuteBucket = MinuteBucket(metric: string, minute: int, min: real, max: real)

  function DayOf(t: int): int { t / DAY_MS }

  /** The minute a sample falls into widens, or comes into being. */
  function Upsert(minutes: seq<MinuteBucket>, p: Point): (out: seq<MinuteBucket>)
    ensures |minutes| <= |out|
  {
    if minutes == [] then [MinuteBucket(p.metric, p.minute, p.value, p.value)]
    else
      var first := minutes[0];
      if first.metric == p.metric && first.minute == p.minute
      then
        var min := if p.value < first.min then p.value else first.min;
        [MinuteBucket(p.metric, p.minute, min, MaxReal(p.value, first.max))] + minutes[1..]
      else [first] + Upsert(minutes[1..], p)
  }

  /** The aggregate over the raw samples. */
  function Minutes(points: seq<Point>): seq<MinuteBucket> {
    if points == [] then [] else Upsert(Minutes(points[..|points| - 1]), points[|points| - 1])
  }

  function PointsOf(points: seq<Point>, metric: string, day: int): seq<Point> {
    if points == [] then []
    else
      var before, p := PointsOf(points[..|points| - 1], metric, day), points[|points| - 1];
      if p.metric == metric && DayOf(p.minute) == day then before + [p] else before
  }

  function MinutesOf(minutes: seq<MinuteBucket>, metric: string, day: int): seq<MinuteBucket> {
    if minutes == [] then []
    else
      var later, b := MinutesOf(minutes[1..], metric, day), minutes[0];
      if b.metric == metric && DayOf(b.minute) == day then [b] + later else later
  }

  function SumPoints(points: seq<Point>): real {
    if points == [] then 0.0 else SumPoints(points[..|points| - 1]) + points[|points| - 1].value
  }

  function SumMax(minutes: seq<MinuteBucket>): real {
    if minutes == [] then 0.0 else minutes[0].max + SumMax(minutes[1..])
  }

  function WidestSpread(minutes: seq<MinuteBucket>): real
    requires minutes != []
  {
    var first := minutes[0].max - minutes[0].min;
    if |minutes| == 1 then first else MaxReal(first, WidestSpread(minutes[1..]))
  }

  function LegacyMean(points: seq<Point>): Option<real> {
    if points == [] then None else Some(SumPoints(points) / |points| as real)
  }

  function NewMean(minutes: seq<MinuteBucket>): Option<real> {
    if minutes == [] then None else Some(SumMax(minutes) / |minutes| as real)
  }

  function RowFor(legacy: seq<Point>, minutes: seq<MinuteBucket>, key: (string, int)): CoverageRow {
    var before, after := PointsOf(legacy, key.0, key.1), MinutesOf(minutes, key.0, key.1);
    CoverageRow(key.0, key.1, |before|, |after|, LegacyMean(before), NewMean(after),
                if after == [] then None else Some(WidestSpread(after)))
  }

  function AddKey(keys: seq<(string, int)>, key: (string, int)): seq<(string, int)> {
    if key in keys then keys else keys + [key]
  }

  function PointKeys(points: seq<Point>): seq<(string, int)> {
    if points == [] then []
    else AddKey(PointKeys(points[..|points| - 1]), (points[|points| - 1].metric, DayOf(points[|points| - 1].minute)))
  }

  function MinuteKeys(keys: seq<(string, int)>, minutes: seq<MinuteBucket>): seq<(string, int)>
    decreases |minutes|
  {
    if minutes == [] then keys
    else MinuteKeys(AddKey(keys, (minutes[0].metric, DayOf(minutes[0].minute))), minutes[1..])
  }

  function RowsFor(legacy: seq<Point>, minutes: seq<MinuteBucket>, keys: seq<(string, int)>): (rows: seq<CoverageRow>)
    ensures |rows| == |keys| && forall i :: 0 <= i < |rows| ==> rows[i] == RowFor(legacy, minutes, keys[i])
  {
    if keys == [] then [] else [RowFor(legacy, minutes, keys[0])] + RowsFor(legacy, minutes, keys[1..])
  }

  /** The full outer join: a row for every metric-day that either side has. */
  function ReadCoverage(legacy: seq<Point>, samples: seq<Point>): seq<CoverageRow> {
    var minutes := Minutes(samples);
    RowsFor(legacy, minutes, MinuteKeys(PointKeys(legacy), minutes))
  }

  // ----- the join sees every metric-day ---------------------------------------------

  lemma {:induction false} PointKeysAre(points: seq<Point>, metric: string, day: int)
    ensures (metric, day) in PointKeys(points) <==> PointsOf(points, metric, day) != []
  {
    if points != [] { PointKeysAre(points[..|points| - 1], metric, day); }
  }

  lemma {:induction false} MinuteKeysAre(keys: seq<(string, int)>, minutes: seq<MinuteBucket>, metric: string, day: int)
    ensures (metric, day) in MinuteKeys(keys, minutes)
        <==> (metric, day) in keys || MinutesOf(minutes, metric, day) != []
    decreases |minutes|
  {
    if minutes != [] {
      MinuteKeysAre(AddKey(keys, (minutes[0].metric, DayOf(minutes[0].minute))), minutes[1..], metric, day);
    }
  }

  predicate Ordered(minutes: seq<MinuteBucket>) { forall i :: 0 <= i < |minutes| ==> minutes[i].min <= minutes[i].max }

  lemma {:induction false} UpsertOrdered(minutes: seq<MinuteBucket>, p: Point)
    requires Ordered(minutes)
    ensures Ordered(Upsert(minutes, p))
  {
    if minutes != [] {
      assert forall i :: 0 <= i < |minutes[1..]| ==> minutes[1..][i] == minutes[i + 1];
      UpsertOrdered(minutes[1..], p);
    }
  }

  lemma {:induction false} MinutesOrdered(points: seq<Point>)
    ensures Ordered(Minutes(points))
  {
    if points != [] {
      MinutesOrdered(points[..|points| - 1]);
      UpsertOrdered(Minutes(points[..|points| - 1]), points[|points| - 1]);
    }
  }

  predicate Flat(minutes: seq<MinuteBucket>) { forall i :: 0 <= i < |minutes| ==> minutes[i].min == minutes[i].max }

  lemma {:induction false} MinutesOfOrdered(minutes: seq<MinuteBucket>, metric: string, day: int)
    requires Ordered(minutes)
    ensures Ordered(MinutesOf(minutes, metric, day))
  {
    if minutes != [] {
      assert forall i :: 0 <= i < |minutes[1..]| ==> minutes[1..][i] == minutes[i + 1];
      MinutesOfOrdered(minutes[1..], metric, day);
    }
  }

  lemma {:induction false} NoSpreadIsFlat(minutes: seq<MinuteBucket>)
    requires minutes != [] && Ordered(minutes)
    ensures WidestSpread(minutes) >= 0.0
    ensures WidestSpread(minutes) == 0.0 <==> Flat(minutes)
  {
    if |minutes| > 1 {
      assert forall i :: 0 <= i < |minutes[1..]| ==> minutes[1..][i] == minutes[i + 1];
      NoSpreadIsFlat(minutes[1..]);
      if Flat(minutes) { assert Flat(minutes[1..]); }
    }
  }

  /** The means are equal but for noise: one part in a thousand million, of the first or of one. */
  predicate Close(before: real, after: real) {
    var apart := if before < after then after - before else before - after;
    apart <= 0.000000001 || apart <= 0.000000001 * before || apart <= -0.000000001 * before
  }

  predicate SameMean(before: seq<Point>, after: seq<MinuteBucket>)
    requires before != [] && after != []
  {
    Close(SumPoints(before) / |before| as real, SumMax(after) / |after| as real)
  }

  /** What the gate demands of one metric-day: as many buckets, all of them flat, and the same mean. */
  predicate Agrees(legacy: seq<Point>, minutes: seq<MinuteBucket>, metric: string, day: int) {
    var before, after := PointsOf(legacy, metric, day), MinutesOf(minutes, metric, day);
    |before| == |after| && Flat(after) && (before != [] ==> SameMean(before, after))
  }

  ghost predicate AllAgree(legacy: seq<Point>, minutes: seq<MinuteBucket>) {
    forall metric: string, day: int :: Agrees(legacy, minutes, metric, day)
  }

  lemma NoBucketsAreFlat()
    ensures Flat([])
  {
  }

  lemma RowAgrees(legacy: seq<Point>, minutes: seq<MinuteBucket>, metric: string, day: int)
    requires Ordered(minutes)
    ensures var present := PointsOf(legacy, metric, day) != [] || MinutesOf(minutes, metric, day) != [];
            && (present ==> (RowProblem(RowFor(legacy, minutes, (metric, day))).None?
                <==> Agrees(legacy, minutes, metric, day)))
            && (!present ==> Agrees(legacy, minutes, metric, day))
  {
    hide PointsOf, MinutesOf, SumPoints, SumMax, WidestSpread, Ordered, Flat;
    var after := MinutesOf(minutes, metric, day);
    MinutesOfOrdered(minutes, metric, day);
    NoBucketsAreFlat();
    if after != [] { NoSpreadIsFlat(after); }
  }

  lemma JoinAgrees(legacy: seq<Point>, samples: seq<Point>, metric: string, day: int)
    ensures var minutes := Minutes(samples);
            var keys := MinuteKeys(PointKeys(legacy), minutes);
            && ((metric, day) in keys ==>
                  (RowProblem(RowFor(legacy, minutes, (metric, day))).None? <==> Agrees(legacy, minutes, metric, day)))
            && ((metric, day) !in keys ==> Agrees(legacy, minutes, metric, day))
  {
    MinutesOrdered(samples);
    PointKeysAre(legacy, metric, day);
    MinuteKeysAre(PointKeys(legacy), Minutes(samples), metric, day);
    RowAgrees(legacy, Minutes(samples), metric, day);
  }

  lemma AcceptedAgrees(legacy: seq<Point>, samples: seq<Point>, metric: string, day: int)
    requires CompareCoverage(ReadCoverage(legacy, samples)) == []
    ensures Agrees(legacy, Minutes(samples), metric, day)
  {
    hide Agrees, RowFor, PointKeys, MinuteKeys, Minutes, RowProblem;
    var rows, keys := ReadCoverage(legacy, samples), MinuteKeys(PointKeys(legacy), Minutes(samples));
    NoRowProblems(rows);
    JoinAgrees(legacy, samples, metric, day);
    if (metric, day) in keys {
      var i :| 0 <= i < |keys| && keys[i] == (metric, day);
      assert RowProblem(rows[i]).None?;
    }
  }

  lemma AgreedIsAccepted(legacy: seq<Point>, samples: seq<Point>)
    requires legacy != [] || samples != []
    requires AllAgree(legacy, Minutes(samples))
    ensures CompareCoverage(ReadCoverage(legacy, samples)) == []
  {
    SomethingToCompare(legacy, samples);
    hide Agrees, RowFor, PointKeys, MinuteKeys, Minutes, RowProblem;
    var rows, keys := ReadCoverage(legacy, samples), MinuteKeys(PointKeys(legacy), Minutes(samples));
    forall i | 0 <= i < |rows| ensures RowProblem(rows[i]).None? {
      var (metric, day) := keys[i];
      assert keys[i] in keys && keys[i] == (metric, day);
      JoinAgrees(legacy, samples, metric, day);
      assert Agrees(legacy, Minutes(samples), metric, day);
    }
    NoRowProblems(rows);
  }

  /**
   * The gate accepts if and only if there is something to compare and every
   * metric-day agrees: no bucket lost, none doubled, none with two different
   * values, and no mean moved.
   */
  lemma GateIsExact(legacy: seq<Point>, samples: seq<Point>)
    ensures CompareCoverage(ReadCoverage(legacy, samples)) == []
       <==> (legacy != [] || samples != []) && AllAgree(legacy, Minutes(samples))
  {
    SomethingToCompare(legacy, samples);
    hide Agrees, ReadCoverage, RowProblems;
    if CompareCoverage(ReadCoverage(legacy, samples)) == [] {
      forall metric: string, day: int ensures Agrees(legacy, Minutes(samples), metric, day) {
        AcceptedAgrees(legacy, samples, metric, day);
      }
    }
    if (legacy != [] || samples != []) && AllAgree(legacy, Minutes(samples)) { AgreedIsAccepted(legacy, samples); }
  }

  lemma SomethingToCompare(legacy: seq<Point>, samples: seq<Point>)
    ensures ReadCoverage(legacy, samples) == [] <==> legacy == [] && samples == []
  {
    var minutes := Minutes(samples);
    if legacy != [] {
      var p := legacy[|legacy| - 1];
      PointKeysAre(legacy, p.metric, DayOf(p.minute));
      MinuteKeysAre(PointKeys(legacy), minutes, p.metric, DayOf(p.minute));
      assert (p.metric, DayOf(p.minute)) in MinuteKeys(PointKeys(legacy), minutes);
    } else if samples != [] {
      var b := minutes[0];
      MinuteKeysAre([], minutes, b.metric, DayOf(b.minute));
      assert (b.metric, DayOf(b.minute)) in MinuteKeys([], minutes);
    }
  }

  // ----- what the report names ------------------------------------------------------------

  lemma ProblemsNameTheirRow(row: CoverageRow)
    ensures RowProblem(row).Some? ==>
              RowProblem(row).value
                  in {NoNewBuckets(row), DoubleWrite(row), HistoryLost(row), MeanDiffers(row), Spread(row)}
  {
  }

  lemma {:induction false} ReportedRows(rows: seq<CoverageRow>, problem: Problem)
    ensures problem in RowProblems(rows) <==> exists i :: 0 <= i < |rows| && RowProblem(rows[i]) == Some(problem)
  {
    hide RowProblem;
    if rows != [] {
      ReportedRows(rows[1..], problem);
      assert forall i :: 0 < i < |rows| ==> rows[i] == rows[1..][i - 1];
    }
  }

  lemma RowIsReported(legacy: seq<Point>, samples: seq<Point>, metric: string, day: int, problem: Problem)
    requires var row := RowFor(legacy, Minutes(samples), (metric, day));
             problem in {NoNewBuckets(row), DoubleWrite(row), HistoryLost(row), MeanDiffers(row), Spread(row)}
    ensures problem in CompareCoverage(ReadCoverage(legacy, samples))
       <==> (PointsOf(legacy, metric, day) != [] || MinutesOf(Minutes(samples), metric, day) != [])
            && RowProblem(RowFor(legacy, Minutes(samples), (metric, day))) == Some(problem)
  {
    hide RowProblem, Minutes, PointKeys, MinuteKeys, PointsOf, MinutesOf;
    var minutes := Minutes(samples);
    var keys, rows := MinuteKeys(PointKeys(legacy), minutes), ReadCoverage(legacy, samples);
    var row := RowFor(legacy, minutes, (metric, day));
    PointKeysAre(legacy, metric, day);
    MinuteKeysAre(PointKeys(legacy), minutes, metric, day);
    ReportedRows(rows, problem);
    if i :| 0 <= i < |rows| && RowProblem(rows[i]) == Some(problem) {
      ProblemsNameTheirRow(rows[i]);
      assert rows[i] == row && keys[i] == (metric, day);
      assert keys[i] in keys;
    }
    if (metric, day) in keys {
      var i :| 0 <= i < |keys| && keys[i] == (metric, day);
      assert rows[i] == row;
    }
  }

  /**
   * The report, metric-day by metric-day: a loss and a double write are told apart by
   * the counts, a changed mean and a spread only where the counts agree, and of these
   * the mean is named first.
   */
  lemma ReportIsExact(legacy: seq<Point>, samples: seq<Point>, metric: string, day: int)
    ensures var minutes, problems := Minutes(samples), CompareCoverage(ReadCoverage(legacy, samples));
            var before, after := PointsOf(legacy, metric, day), MinutesOf(minutes, metric, day);
            var row := RowFor(legacy, minutes, (metric, day));
            && (NoNewBuckets(row) in problems <==> before != [] && after == [])
            && (HistoryLost(row) in problems <==> 0 < |after| < |before|)
            && (DoubleWrite(row) in problems <==> |before| < |after|)
            && (MeanDiffers(row) in problems <==> |before| == |after| > 0 && !SameMean(before, after))
            && (Spread(row) in problems <==> |before| == |after| > 0 && SameMean(before, after) && !Flat(after))
    ensures NothingCompared in CompareCoverage(ReadCoverage(legacy, samples)) <==> legacy == [] && samples == []
  {
    var minutes := Minutes(samples);
    var row := RowFor(legacy, minutes, (metric, day));
    SomethingToCompare(legacy, samples);
    RowVerdict(legacy, samples, metric, day);
    hide RowProblem, PointsOf, MinutesOf, SameMean, Flat, Minutes, ReadCoverage, RowFor;
    RowIsReported(legacy, samples, metric, day, NoNewBuckets(row));
    RowIsReported(legacy, samples, metric, day, HistoryLost(row));
    RowIsReported(legacy, samples, metric, day, DoubleWrite(row));
    RowIsReported(legacy, samples, metric, day, MeanDiffers(row));
    RowIsReported(legacy, samples, metric, day, Spread(row));
    NothingIsNoRow(legacy, samples);
  }

  lemma RowVerdict(legacy: seq<Point>, samples: seq<Point>, metric: string, day: int)
    ensures var before, after := PointsOf(legacy, metric, day), MinutesOf(Minutes(samples), metric, day);
            var row := RowFor(legacy, Minutes(samples), (metric, day));
            RowProblem(row)
            == if after == [] then Some(NoNewBuckets(row))
               else if |after| < |before| then Some(HistoryLost(row))
               else if |before| < |after| then Some(DoubleWrite(row))
               else if !SameMean(before, after) then Some(MeanDiffers(row))
               else if !Flat(after) then Some(Spread(row))
               else None
  {
    var minutes := Minutes(samples);
    MinutesOrdered(samples);
    MinutesOfOrdered(minutes, metric, day);
    hide PointsOf, MinutesOf, SumPoints, SumMax, WidestSpread, Ordered, Flat, Minutes;
    var after := MinutesOf(minutes, metric, day);
    if after != [] { NoSpreadIsFlat(after); }
  }

  /** The two means of a row are not the same: only one is there, or they lie apart. */
  predicate Apart(row: CoverageRow) {
    match row.legacyMean
    case None => row.newMean.Some?
    case Some(was) =>
      row.newMean.None? ||
      var gap := if was < row.newMean.value then row.newMean.value - was else was - row.newMean.value;
      gap > 0.000000001 && gap > 0.000000001 * was && gap > -0.000000001 * was
  }

  /** Any rows are judged one by one, in their order, each by the first check that it fails. */
  lemma {:induction false} RowsAreJudgedInOrder(earlier: seq<CoverageRow>, row: CoverageRow, later: seq<CoverageRow>)
    ensures CompareCoverage(earlier + [row] + later)
         == RowProblems(earlier)
            + (if row.newBuckets == 0 then [NoNewBuckets(row)]
               else if row.newBuckets < row.legacyBuckets then [HistoryLost(row)]
               else if row.newBuckets > row.legacyBuckets then [DoubleWrite(row)]
               else if Apart(row) then [MeanDiffers(row)]
               else if row.newSpread.Some? && row.newSpread.value != 0.0 then [Spread(row)]
               else [])
            + RowProblems(later)
    decreases |earlier|
  {
    var rows := earlier + [row] + later;
    if earlier == [] {
      assert rows == [row] + later && rows[1..] == later;
    } else {
      hide RowProblem, Apart;
      assert rows[1..] == earlier[1..] + [row] + later;
      RowsAreJudgedInOrder(earlier[1..], row, later);
    }
  }

  predicate KeyedOnce(keys: seq<(string, int)>) { forall i, j :: 0 <= i < j < |keys| ==> keys[i] != keys[j] }

  lemma {:induction false} PointKeysOnce(points: seq<Point>)
    ensures KeyedOnce(PointKeys(points))
  {
    if points != [] { PointKeysOnce(points[..|points| - 1]); }
  }

  lemma {:induction false} MinuteKeysOnce(keys: seq<(string, int)>, minutes: seq<MinuteBucket>)
    requires KeyedOnce(keys)
    ensures KeyedOnce(MinuteKeys(keys, minutes))
    decreases |minutes|
  {
    if minutes != [] { MinuteKeysOnce(AddKey(keys, (minutes[0].metric, DayOf(minutes[0].minute))), minutes[1..]); }
  }

  /** A metric-day is compared once, whichever side it comes from. */
  lemma MetricDaysAreComparedOnce(legacy: seq<Point>, samples: seq<Point>)
    ensures var rows := ReadCoverage(legacy, samples);
            forall i, j :: 0 <= i < j < |rows| ==> rows[i].metric != rows[j].metric || rows[i].day != rows[j].day
  {
    hide Minutes, PointKeys, MinuteKeys, PointsOf, MinutesOf;
    PointKeysOnce(legacy);
    MinuteKeysOnce(PointKeys(legacy), Minutes(samples));
  }

  lemma NothingIsNoRow(legacy: seq<Point>, samples: seq<Point>)
    ensures NothingCompared in CompareCoverage(ReadCoverage(legacy, samples)) <==> ReadCoverage(legacy, samples) == []
  {
    hide RowProblem, ReadCoverage;
    var rows := ReadCoverage(legacy, samples);
    ReportedRows(rows, NothingCompared);
    if i :| 0 <= i < |rows| && RowProblem(rows[i]) == Some(NothingCompared) { ProblemsNameTheirRow(rows[i]); }
  }

  /**
   * Of a metric-day with as many buckets on either side, none of them with two values,
   * the gate says something if and only if the two means are further apart than one part
   * in a thousand million of the larger of one and the legacy mean's size.
   */
  lemma MeanDecides(legacy: seq<Point>, samples: seq<Point>, metric: string, day: int)
    requires |PointsOf(legacy, metric, day)| == |MinutesOf(Minutes(samples), metric, day)| > 0
    requires Flat(MinutesOf(Minutes(samples), metric, day))
    ensures var before, after := PointsOf(legacy, metric, day), MinutesOf(Minutes(samples), metric, day);
            var was, now := SumPoints(before) / |before| as real, SumMax(after) / |after| as real;
            var apart := if was < now then now - was else was - now;
            var size := if was > 1.0 then was else if was < -1.0 then -was else 1.0;
            (exists problem :: problem in CompareCoverage(ReadCoverage(legacy, samples)) && About(problem, metric, day))
            <==> apart > 0.000000001 * size
  {
    var row := RowFor(legacy, Minutes(samples), (metric, day));
    ReportIsExact(legacy, samples, metric, day);
    hide PointsOf, MinutesOf, SumPoints, SumMax, ReadCoverage, CompareCoverage, Minutes, Flat;
    var problems := CompareCoverage(ReadCoverage(legacy, samples));
    assert About(MeanDiffers(row), metric, day);
    if problem :| problem in problems && About(problem, metric, day) {
      AboutOneDay(legacy, samples, metric, day, problem);
    }
  }

  predicate About(problem: Problem, metric: string, day: int) {
    match problem
    case NothingCompared => false
    case ConfigLeaked(_) => false
    case NoNewBuckets(row) => row.metric == metric && row.day == day
    case DoubleWrite(row) => row.metric == metric && row.day == day
    case HistoryLost(row) => row.metric == metric && row.day == day
    case MeanDiffers(row) => row.metric == metric && row.day == day
    case Spread(row) => row.metric == metric && row.day == day
  }

  /** A metric-day has one row, so what is said about it is said about that row. */
  lemma AboutOneDay(legacy: seq<Point>, samples: seq<Point>, metric: string, day: int, problem: Problem)
    requires problem in CompareCoverage(ReadCoverage(legacy, samples)) && About(problem, metric, day)
    ensures var row := RowFor(legacy, Minutes(samples), (metric, day));
            problem in {NoNewBuckets(row), DoubleWrite(row), HistoryLost(row), MeanDiffers(row), Spread(row)}
  {
    hide RowProblem, Minutes, PointKeys, MinuteKeys, PointsOf, MinutesOf;
    var rows, keys := ReadCoverage(legacy, samples), MinuteKeys(PointKeys(legacy), Minutes(samples));
    ReportedRows(rows, problem);
    var i :| 0 <= i < |rows| && RowProblem(rows[i]) == Some(problem);
    ProblemsNameTheirRow(rows[i]);
    assert rows[i] == RowFor(legacy, Minutes(samples), keys[i]);
    assert keys[i] == (metric, day);
  }

  // ----- complete on a clean replay ----------------------------------------------------

  /** No metric has two values in one minute. */
  predicate OnePerMinute(points: seq<Point>) {
    forall i, j :: 0 <= i < j < |points| ==>
        !(points[i].metric == points[j].metric && points[i].minute == points[j].minute)
  }

  function FlatMinutes(points: seq<Point>): (ms: seq<MinuteBucket>)
    ensures |ms| == |points|
    ensures forall i ::
          0 <= i < |ms| ==> ms[i] == MinuteBucket(points[i].metric, points[i].minute, points[i].value, points[i].value)
  {
    if points == [] then []
    else
      var p := points[|points| - 1];
      FlatMinutes(points[..|points| - 1]) + [MinuteBucket(p.metric, p.minute, p.value, p.value)]
  }

  lemma {:induction false} UpsertNew(minutes: seq<MinuteBucket>, p: Point)
    requires forall i :: 0 <= i < |minutes| ==> !(minutes[i].metric == p.metric && minutes[i].minute == p.minute)
    ensures Upsert(minutes, p) == minutes + [MinuteBucket(p.metric, p.minute, p.value, p.value)]
  {
    if minutes != [] {
      assert forall i :: 0 <= i < |minutes[1..]| ==> minutes[1..][i] == minutes[i + 1];
      UpsertNew(minutes[1..], p);
    }
  }

  lemma {:induction false} CleanMinutesAreFlat(points: seq<Point>)
    requires OnePerMinute(points)
    ensures Minutes(points) == FlatMinutes(points)
  {
    if points != [] {
      var before, p := points[..|points| - 1], points[|points| - 1];
      assert forall i :: 0 <= i < |before| ==> before[i] == points[i];
      CleanMinutesAreFlat(before);
      UpsertNew(FlatMinutes(before), p);
    }
  }

  lemma {:induction false} MinutesOfSnoc(minutes: seq<MinuteBucket>, b: MinuteBucket, metric: string, day: int)
    ensures MinutesOf(minutes + [b], metric, day)
         == MinutesOf(minutes, metric, day) + if b.metric == metric && DayOf(b.minute) == day then [b] else []
  {
    if minutes == [] {
      assert [b][1..] == [] && minutes + [b] == [b];
    } else {
      assert (minutes + [b])[1..] == minutes[1..] + [b];
      MinutesOfSnoc(minutes[1..], b, metric, day);
    }
  }

  lemma {:induction false} SumMaxSnoc(minutes: seq<MinuteBucket>, b: MinuteBucket)
    ensures SumMax(minutes + [b]) == SumMax(minutes) + b.max
  {
    if minutes == [] {
      assert [b][1..] == [] && minutes + [b] == [b];
    } else {
      assert (minutes + [b])[1..] == minutes[1..] + [b];
      SumMaxSnoc(minutes[1..], b);
    }
  }

  lemma DaySnoc(points: seq<Point>, p: Point, metric: string, day: int)
    ensures var before, after := PointsOf(points, metric, day), PointsOf(points + [p], metric, day);
            var mine := p.metric == metric && DayOf(p.minute) == day;
            && |after| == |before| + (if mine then 1 else 0)
            && SumPoints(after) == SumPoints(before) + if mine then p.value else 0.0
  {
    assert (points + [p])[..|points|] == points;
    var before, after := PointsOf(points, metric, day), PointsOf(points + [p], metric, day);
    if p.metric == metric && DayOf(p.minute) == day { assert after[..|after| - 1] == before; }
  }

  lemma FlatSnoc(points: seq<Point>, p: Point, metric: string, day: int)
    ensures var before, after := MinutesOf(FlatMinutes(points), metric, day), MinutesOf(FlatMinutes(points
        + [p]), metric, day);
            var mine := p.metric == metric && DayOf(p.minute) == day;
            && after == (if mine then before + [MinuteBucket(p.metric, p.minute, p.value, p.value)] else before)
            && SumMax(after) == SumMax(before) + if mine then p.value else 0.0
  {
    hide MinutesOf, SumMax;
    assert (points + [p])[..|points|] == points;
    var b := MinuteBucket(p.metric, p.minute, p.value, p.value);
    MinutesOfSnoc(FlatMinutes(points), b, metric, day);
    SumMaxSnoc(MinutesOf(FlatMinutes(points), metric, day), b);
  }

  /** On flat minutes the new tier's metric-days are those of the samples. */
  lemma {:induction false} FlatDay(points: seq<Point>, metric: string, day: int)
    ensures var after := MinutesOf(FlatMinutes(points), metric, day);
            |after| == |PointsOf(points, metric, day)|
                && SumMax(after) == SumPoints(PointsOf(points, metric, day)) && Flat(after)
  {
    if points != [] {
      hide PointsOf, MinutesOf, SumPoints, SumMax, FlatMinutes;
      var before, p := points[..|points| - 1], points[|points| - 1];
      assert points == before + [p];
      FlatDay(before, metric, day);
      FlatSnoc(before, p, metric, day);
      DaySnoc(before, p, metric, day);
    }
  }

  lemma {:induction false} WithoutDay(points: seq<Point>, i: nat, metric: string, day: int)
    requires i < |points|
    ensures var p, rest := points[i], Without(points, i);
            var mine := p.metric == metric && DayOf(p.minute) == day;
            && |PointsOf(points, metric, day)| == |PointsOf(rest, metric, day)| + (if mine then 1 else 0)
            && SumPoints(PointsOf(points, metric, day))
                == SumPoints(PointsOf(rest, metric, day)) + if mine then p.value else 0.0
    decreases |points|
  {
    hide PointsOf, SumPoints;
    var n := |points|;
    DaySnoc(points[..n - 1], points[n - 1], metric, day);
    assert points == points[..n - 1] + [points[n - 1]];
    if i == n - 1 {
      assert Without(points, i) == points[..n - 1];
    } else {
      WithoutDay(points[..n - 1], i, metric, day);
      assert Without(points, i) == Without(points[..n - 1], i) + [points[n - 1]];
      DaySnoc(Without(points[..n - 1], i), points[n - 1], metric, day);
    }
  }

  /** Counts and sums of a metric-day do not depend on the order of the samples. */
  lemma {:induction false} OrderIsIrrelevant(x: seq<Point>, y: seq<Point>, metric: string, day: int)
    requires multiset(x) == multiset(y)
    ensures |PointsOf(x, metric, day)| == |PointsOf(y, metric, day)|
    ensures SumPoints(PointsOf(x, metric, day)) == SumPoints(PointsOf(y, metric, day))
    decreases |x|
  {
    if x == [] {
      assert |multiset(y)| == 0;
    } else {
      hide PointsOf, SumPoints;
      var n := |x|;
      var i := SameWithout(x, y);
      WithoutDay(y, i, metric, day);
      OrderIsIrrelevant(x[..n - 1], Without(y, i), metric, day);
      assert x == x[..n - 1] + [x[n - 1]];
      DaySnoc(x[..n - 1], x[n - 1], metric, day);
    }
  }

  lemma DistinctMinutes(points: seq<Point>)
    requires OnePerMinute(points)
    ensures Distinct(points)
  {
  }

  lemma SameMinuteSame(points: seq<Point>, p: Point, q: Point)
    requires OnePerMinute(points) && p in multiset(points) && q in multiset(points) && p.metric == q.metric
         && p.minute == q.minute
    ensures p == q
  {
    var k := Position(points, p);
    var l := Position(points, q);
  }

  /** Being one per minute does not depend on the order. */
  lemma OnePerMinuteReordered(x: seq<Point>, y: seq<Point>)
    requires multiset(x) == multiset(y) && OnePerMinute(y)
    ensures OnePerMinute(x)
  {
    forall i, j | 0 <= i < j < |x| ensures !(x[i].metric == x[j].metric && x[i].minute == x[j].minute) {
      assert x[i] in multiset(x) && x[j] in multiset(x);
      DistinctMinutes(y);
      OnceEach(y, x[i]);
      if x[i].metric == x[j].metric && x[i].minute == x[j].minute {
        SameMinuteSame(y, x[i], x[j]);
        TwiceIsTwo(x, i, j);
      }
    }
  }

  /** A replay that wrote each legacy minute once, in any order, always passes. */
  lemma CleanReplayPasses(legacy: seq<Point>, samples: seq<Point>)
    requires multiset(samples) == multiset(legacy) && OnePerMinute(legacy) && legacy != []
    ensures CompareCoverage(ReadCoverage(legacy, samples)) == []
  {
    OnePerMinuteReordered(samples, legacy);
    CleanMinutesAreFlat(samples);
    hide Minutes, FlatMinutes, PointsOf, MinutesOf, SumPoints, SumMax, ReadCoverage, CompareCoverage;
    forall metric: string, day: int ensures Agrees(legacy, Minutes(samples), metric, day) {
      FlatDay(samples, metric, day);
      OrderIsIrrelevant(samples, legacy, metric, day);
    }
    GateIsExact(legacy, samples);
  }

  // ----- and blind to an exact duplicate -------------------------------------------------

  /** The sample's minute is there, and wide enough for it. */
  predicate Contains(minutes: seq<MinuteBucket>, p: Point) {
    minutes != []
    && if minutes[0].metric == p.metric && minutes[0].minute == p.minute
       then minutes[0].min <= p.value <= minutes[0].max
       else Contains(minutes[1..], p)
  }

  lemma {:induction false} UpsertContains(minutes: seq<MinuteBucket>, p: Point, q: Point)
    requires Ordered(minutes) && (p == q || Contains(minutes, q))
    ensures Contains(Upsert(minutes, p), q)
  {
    if minutes != [] {
      assert forall i :: 0 <= i < |minutes[1..]| ==> minutes[1..][i] == minutes[i + 1];
      if !(minutes[0].metric == q.metric && minutes[0].minute == q.minute)
         && !(minutes[0].metric == p.metric && minutes[0].minute == p.minute) { UpsertContains(minutes[1..], p, q); }
    }
  }

  lemma {:induction false} ContainedIsFixed(minutes: seq<MinuteBucket>, p: Point)
    requires Contains(minutes, p)
    ensures Upsert(minutes, p) == minutes
  {
    if !(minutes[0].metric == p.metric && minutes[0].minute == p.minute) { ContainedIsFixed(minutes[1..], p); }
  }

  lemma {:induction false} SamplesAreContained(samples: seq<Point>, p: Point)
    requires p in samples
    ensures Contains(Minutes(samples), p)
  {
    var before, last := samples[..|samples| - 1], samples[|samples| - 1];
    MinutesOrdered(before);
    if p != last { SamplesAreContained(before, p); }
    UpsertContains(Minutes(before), last, p);
  }

  /** A sample written twice, value and all, changes nothing the gate looks at. */
  lemma DuplicateIsInvisible(legacy: seq<Point>, samples: seq<Point>, p: Point)
    requires p in samples
    ensures ReadCoverage(legacy, samples + [p]) == ReadCoverage(legacy, samples)
  {
    assert (samples + [p])[..|samples|] == samples;
    SamplesAreContained(samples, p);
    ContainedIsFixed(Minutes(samples), p);
  }

  // ----- what the gate compares: the distinct samples ---------------------------------------

  /** The samples without repeats, in order of first appearance. */
  function Unrepeated(samples: seq<Point>): seq<Point> {
    if samples == [] then []
    else
      var before, p := Unrepeated(samples[..|samples| - 1]), samples[|samples| - 1];
      if p in before then before else before + [p]
  }

  lemma {:induction false} UnrepeatedIsFaithful(samples: seq<Point>)
    ensures Distinct(Unrepeated(samples)) && Minutes(Unrepeated(samples)) == Minutes(samples)
    ensures forall p :: p in Unrepeated(samples) <==> p in samples
  {
    if samples != [] {
      var before, p := samples[..|samples| - 1], samples[|samples| - 1];
      UnrepeatedIsFaithful(before);
      assert samples == before + [p];
      if p in before {
        SamplesAreContained(before, p);
        ContainedIsFixed(Minutes(before), p);
      } else {
        assert Unrepeated(samples)[..|Unrepeated(before)|] == Unrepeated(before);
      }
    }
  }

  lemma UnrepeatedCoverage(legacy: seq<Point>, samples: seq<Point>)
    ensures ReadCoverage(legacy, Unrepeated(samples)) == ReadCoverage(legacy, samples)
    ensures Unrepeated(samples) == [] <==> samples == []
  {
    UnrepeatedIsFaithful(samples);
    if samples != [] { assert samples[0] in samples; }
  }

  lemma {:induction false} OneValueInFlat(minutes: seq<MinuteBucket>, p: Point, q: Point)
    requires Contains(minutes, p) && Contains(minutes, q) && p.metric == q.metric && p.minute == q.minute
    requires Flat(MinutesOf(minutes, p.metric, DayOf(p.minute)))
    ensures p == q
  {
    var mine := MinutesOf(minutes, p.metric, DayOf(p.minute));
    if minutes[0].metric == p.metric && minutes[0].minute == p.minute {
      assert mine[0] == minutes[0];
    } else {
      var later := MinutesOf(minutes[1..], p.metric, DayOf(p.minute));
      assert forall i :: 0 <= i < |later| ==> later[i] == mine[|mine| - |later| + i];
      OneValueInFlat(minutes[1..], p, q);
    }
  }

  lemma AcceptedIsOnePerMinute(legacy: seq<Point>, samples: seq<Point>)
    requires Distinct(samples) && CompareCoverage(ReadCoverage(legacy, samples)) == []
    ensures OnePerMinute(samples)
  {
    hide Agrees, ReadCoverage, CompareCoverage, Contains, Minutes;
    GateIsExact(legacy, samples);
    forall i, j | 0 <= i < j < |samples|
      ensures !(samples[i].metric == samples[j].metric && samples[i].minute == samples[j].minute)
    {
      var p, q := samples[i], samples[j];
      if p.metric == q.metric && p.minute == q.minute {
        SamplesAreContained(samples, p);
        SamplesAreContained(samples, q);
        AgreedIsFlat(legacy, samples, p);
        OneValueInFlat(Minutes(samples), p, q);
      }
    }
  }

  lemma AgreedIsFlat(legacy: seq<Point>, samples: seq<Point>, p: Point)
    requires AllAgree(legacy, Minutes(samples))
    ensures Flat(MinutesOf(Minutes(samples), p.metric, DayOf(p.minute)))
  {
    assert Agrees(legacy, Minutes(samples), p.metric, DayOf(p.minute));
  }

  /** One metric-day: as many values on either side, and the same mean. */
  predicate SameDay(legacy: seq<Point>, points: seq<Point>, metric: string, day: int) {
    var before, after := PointsOf(legacy, metric, day), PointsOf(points, metric, day);
    && |before| == |after|
    && (before != [] ==> Close(SumPoints(before) / |before| as real, SumPoints(after) / |after| as real))
  }

  lemma SameDayAgrees(legacy: seq<Point>, points: seq<Point>, metric: string, day: int)
    requires OnePerMinute(points)
    ensures Agrees(legacy, Minutes(points), metric, day) <==> SameDay(legacy, points, metric, day)
  {
    CleanMinutesAreFlat(points);
    FlatDay(points, metric, day);
  }

  /**
   * The gate in terms of the samples: it accepts if and only if there is something to
   * compare, the samples have one value a minute once exact repeats are struck out,
   * and on every metric-day they are as many as the legacy buckets with the same mean.
   */
  lemma GateComparesDistinctSamples(legacy: seq<Point>, samples: seq<Point>)
    ensures var points := Unrepeated(samples);
            CompareCoverage(ReadCoverage(legacy, samples)) == []
            <==> && (legacy != [] || samples != []) && OnePerMinute(points)
                 && forall metric: string, day: int :: SameDay(legacy, points, metric, day)
  {
    hide Agrees, SameDay, ReadCoverage, CompareCoverage, OnePerMinute, Unrepeated;
    var points := Unrepeated(samples);
    UnrepeatedIsFaithful(samples);
    UnrepeatedCoverage(legacy, samples);
    GateIsExact(legacy, points);
    if CompareCoverage(ReadCoverage(legacy, samples)) == [] { AcceptedIsOnePerMinute(legacy, points); }
    if OnePerMinute(points) {
      forall metric: string, day: int
        ensures Agrees(legacy, Minutes(points), metric, day) <==> SameDay(legacy, points, metric, day)
      {
        SameDayAgrees(legacy, points, metric, day);
      }
    }
  }

  // ----- what one more sample does to it -------------------------------------------------------

  lemma {:induction false} UnrepeatedGrows(x: seq<Point>, y: seq<Point>)
    ensures Unrepeated(x) <= Unrepeated(x + y)
    ensures (forall p :: p in y ==> p in x) ==> Unrepeated(x + y) == Unrepeated(x)
  {
    if y == [] {
      assert x + y == x;
    } else {
      assert (x + y)[..|x + y| - 1] == x + y[..|y| - 1];
      UnrepeatedGrows(x, y[..|y| - 1]);
      if forall p :: p in y ==> p in x {
        assert forall p :: p in y[..|y| - 1] ==> p in y;
        assert y[|y| - 1] in y;
        UnrepeatedIsFaithful(x);
      }
    }
  }

  lemma {:induction false} DayConcat(x: seq<Point>, y: seq<Point>, metric: string, day: int)
    ensures |PointsOf(x + y, metric, day)| == |PointsOf(x, metric, day)| + |PointsOf(y, metric, day)|
  {
    if y == [] {
      assert x + y == x;
    } else {
      assert (x + y)[..|x + y| - 1] == x + y[..|y| - 1];
      DayConcat(x, y[..|y| - 1], metric, day);
    }
  }

  lemma LastIsInItsDay(points: seq<Point>)
    requires points != []
    ensures var p := points[|points| - 1]; PointsOf(points, p.metric, DayOf(p.minute)) != []
  {
  }

  /** When more points leave every day's count alone, there are no more. */
  lemma SameCountsNoMore(x: seq<Point>, more: seq<Point>)
    requires forall metric: string, day: int :: |PointsOf(x + more, metric, day)| == |PointsOf(x, metric, day)|
    ensures more == []
  {
    if more != [] {
      var p := more[|more| - 1];
      LastIsInItsDay(more);
      DayConcat(x, more, p.metric, DayOf(p.minute));
    }
  }

  /**
   * What the gate makes of samples on top of ones it accepts: it still accepts if and
   * only if each of them is an exact repeat, value and all. A second value in a
   * minute, and a minute the legacy side lacks, are both caught.
   */
  lemma ExtraSamplesAreCaught(legacy: seq<Point>, samples: seq<Point>, extra: seq<Point>)
    requires CompareCoverage(ReadCoverage(legacy, samples)) == []
    ensures CompareCoverage(ReadCoverage(legacy, samples + extra)) == [] <==> forall p :: p in extra ==> p in samples
  {
    hide ReadCoverage, CompareCoverage, Unrepeated, OnePerMinute, PointsOf, SumPoints, Minutes;
    var x, all := Unrepeated(samples), Unrepeated(samples + extra);
    UnrepeatedGrows(samples, extra);
    UnrepeatedIsFaithful(samples);
    UnrepeatedIsFaithful(samples + extra);
    GateComparesDistinctSamples(legacy, samples);
    GateComparesDistinctSamples(legacy, samples + extra);
    assert samples != [] ==> samples + extra != [];
    if CompareCoverage(ReadCoverage(legacy, samples + extra)) == [] {
      var more := all[|x|..];
      assert all == x + more;
      forall metric: string, day: int ensures |PointsOf(x + more, metric, day)| == |PointsOf(x, metric, day)| {
        assert SameDay(legacy, x, metric, day) && SameDay(legacy, all, metric, day);
      }
      SameCountsNoMore(x, more);
    }
  }

  lemma {:induction false} UnrepeatedAlready(points: seq<Point>)
    requires Distinct(points)
    ensures Unrepeated(points) == points
  {
    if points != [] {
      var before := points[..|points| - 1];
      assert forall i :: 0 <= i < |before| ==> before[i] == points[i];
      UnrepeatedAlready(before);
    }
  }

  /** Points that hold the legacy ones and match them day by day hold nothing else. */
  lemma NothingBeyond(legacy: seq<Point>, points: seq<Point>)
    requires Distinct(legacy) && Distinct(points) && forall p :: p in legacy ==> p in points
    requires forall metric: string, day: int :: |PointsOf(legacy, metric, day)| == |PointsOf(points, metric, day)|
    ensures forall p :: p in points ==> p in legacy
    ensures points != [] ==> legacy != []
  {
    hide PointsOf, Unrepeated;
    var all := Unrepeated(legacy + points);
    UnrepeatedAlready(legacy);
    UnrepeatedGrows(legacy, points);
    UnrepeatedIsFaithful(legacy + points);
    SameElements(all, points);
    var more := all[|legacy|..];
    assert all == legacy + more;
    forall metric: string, day: int ensures |PointsOf(legacy + more, metric, day)| == |PointsOf(legacy, metric, day)| {
      OrderIsIrrelevant(all, points, metric, day);
    }
    SameCountsNoMore(legacy, more);
    assert all == legacy;
    if points != [] { assert points[0] in points; }
  }

  /**
   * Over a replay that wrote every legacy bucket, the gate accepts if and only if every
   * sample, whoever wrote it and in whatever order, repeats a legacy bucket.
   */
  lemma GateOverReplay(legacy: seq<Point>, samples: seq<Point>)
    requires OnePerMinute(legacy) && forall p :: p in legacy ==> p in samples
    ensures CompareCoverage(ReadCoverage(legacy, samples)) == []
       <==> legacy != [] && forall p :: p in samples ==> p in legacy
  {
    hide ReadCoverage, CompareCoverage, Unrepeated, OnePerMinute, PointsOf, SumPoints, Minutes;
    var points := Unrepeated(samples);
    DistinctMinutes(legacy);
    UnrepeatedIsFaithful(samples);
    UnrepeatedCoverage(legacy, samples);
    if CompareCoverage(ReadCoverage(legacy, samples)) == [] {
      GateComparesDistinctSamples(legacy, samples);
      forall metric: string, day: int ensures |PointsOf(legacy, metric, day)| == |PointsOf(points, metric, day)| {
        assert SameDay(legacy, points, metric, day);
      }
      NothingBeyond(legacy, points);
    }
    if legacy != [] && forall p :: p in samples ==> p in legacy {
      SameElements(points, legacy);
      CleanReplayPasses(legacy, points);
    }
  }

  lemma {:induction false} InItsDay(points: seq<Point>, p: Point)
    requires p in points
    ensures PointsOf(points, p.metric, DayOf(p.minute)) != []
  {
    if p != points[|points| - 1] { InItsDay(points[..|points| - 1], p); }
  }

  /** When every sample repeats a legacy bucket, the gate accepts if and only if every legacy bucket is repeated. */
  lemma GateWithinLegacy(legacy: seq<Point>, samples: seq<Point>)
    requires OnePerMinute(legacy) && forall p :: p in samples ==> p in legacy
    ensures CompareCoverage(ReadCoverage(legacy, samples)) == []
       <==> legacy != [] && forall p :: p in legacy ==> p in samples
  {
    hide ReadCoverage, CompareCoverage, Unrepeated, OnePerMinute, PointsOf, SumPoints, Minutes;
    var points := Unrepeated(samples);
    DistinctMinutes(legacy);
    UnrepeatedIsFaithful(samples);
    if forall p :: p in legacy ==> p in samples { GateOverReplay(legacy, samples); }
    if CompareCoverage(ReadCoverage(legacy, samples)) == [] {
      GateComparesDistinctSamples(legacy, samples);
      forall metric: string, day: int ensures |PointsOf(points, metric, day)| == |PointsOf(legacy, metric, day)| {
        assert SameDay(legacy, points, metric, day);
      }
      NothingBeyond(points, legacy);
      NoneOfNothing(samples, legacy);
    }
  }

  lemma NoneOfNothing(samples: seq<Point>, legacy: seq<Point>)
    requires forall p :: p in samples ==> p in legacy
    ensures samples != [] ==> legacy != []
  {
    if samples != [] { assert samples[0] in samples; }
  }
}
