/**
 * `verifyMigration` of packages/db/src/backfill-run.ts over the database that a
 * backfill leaves: what a verified migration guarantees, and exactly when a clean
 * one is verified.
 */
module MigrationGate {
  import opened Wrappers
  import opened Database
  import opened Spans
  import opened Replay
  import RefreshWindows
  import opened Backfill
  import opened BackfillSafety
  import opened BackfillGuarantees
  import opened BackfillContents
  import opened DropGate

  predicate Comparable(b: Bucket, m: Migration, id: string, bound: int) {
    b.id == id && b.time < bound && b.value.Some? && b.metric !in m.config
  }

  /** The legacy side: one source id, below the bound, without configuration. */
  function LegacyPoints(rows: seq<Bucket>, m: Migration, id: string, bound: int): seq<Point> {
    if rows == [] then []
    else
      var before, b := LegacyPoints(rows[..|rows| - 1], m, id, bound), rows[|rows| - 1];
      if Comparable(b, m, id, bound) then before + [Point(b.metric, b.time, b.value.value)] else before
  }

  function MinuteOf(t: int): int { RefreshWindows.FloorTo(t, MINUTE_MS) }

  /** The new side: every sample of the device in a minute below the bound. */
  function SamplePoints(raw: seq<RawRow>, device: int, bound: int): seq<Point> {
    if raw == [] then []
    else
      var before, row := SamplePoints(raw[..|raw| - 1], device, bound), raw[|raw| - 1];
      if row.device == device && MinuteOf(row.time) < bound
      then before + [Point(row.metric, MinuteOf(row.time), row.value)] else before
  }

  function CountConfigInRaw(raw: seq<RawRow>, device: int, config: set<string>): nat {
    if raw == [] then 0
    else
      var row := raw[|raw| - 1];
      CountConfigInRaw(raw[..|raw| - 1], device, config) + if row.device == device && row.metric in config then 1 else 0
  }

  function Problems(raw: seq<RawRow>, m: Migration, id: string, bound: int): seq<Problem> {
    CompareCoverage(ReadCoverage(LegacyPoints(Relation(m, Minute), m, id, bound), SamplePoints(raw, m.device, bound)))
    + ConfigLeak(CountConfigInRaw(raw, m.device, m.config))
  }

  /** `None` when there is no recorded migration; otherwise the problems, and `Verified` when there are none. */
  function VerifyMigration(db: Db, m: Migration): (Option<seq<Problem>>, Db) {
    if m.sourceId.None? || m.replayTo.None? then (None, db)
    else
      var problems := Problems(db.raw, m, m.sourceId.value, m.replayTo.value);
      (Some(problems), if problems == [] then db.(stage := Verified) else db)
  }

  lemma {:induction false} NoConfigRow(raw: seq<RawRow>, device: int, config: set<string>)
    ensures CountConfigInRaw(raw, device, config) == 0
       <==> forall i :: 0 <= i < |raw| && raw[i].device == device ==> raw[i].metric !in config
  {
    if raw != [] {
      NoConfigRow(raw[..|raw| - 1], device, config);
      assert forall i :: 0 <= i < |raw| - 1 ==> raw[..|raw| - 1][i] == raw[i];
    }
  }

  /**
   * A migration is verified if and only if there is something to compare, every
   * metric-day agrees, and no configuration reached the hypertable.
   */
  lemma VerifiedExactly(db: Db, m: Migration)
    requires m.sourceId.Some? && m.replayTo.Some?
    ensures var legacy := LegacyPoints(Relation(m, Minute), m, m.sourceId.value, m.replayTo.value);
            var samples := SamplePoints(db.raw, m.device, m.replayTo.value);
            VerifyMigration(db, m) == (Some([]), db.(stage := Verified))
            <==> (legacy != [] || samples != []) && AllAgree(legacy, DropGate.Minutes(samples))
                 && forall i :: 0 <= i < |db.raw| && db.raw[i].device == m.device ==> db.raw[i].metric !in m.config
  {
    hide LegacyPoints, SamplePoints, ReadCoverage, RowProblems, AllAgree, DropGate.Minutes;
    var legacy := LegacyPoints(Relation(m, Minute), m, m.sourceId.value, m.replayTo.value);
    var samples := SamplePoints(db.raw, m.device, m.replayTo.value);
    GateIsExact(legacy, samples);
    NoConfigRow(db.raw, m.device, m.config);
  }

  /** The comparison touches nothing but the stage, and does nothing at all without a recorded migration. */
  lemma VerifyTouchesTheStage(db: Db, m: Migration)
    ensures m.sourceId.None? || m.replayTo.None? ==> VerifyMigration(db, m) == (None, db)
    ensures m.sourceId.Some? && m.replayTo.Some? ==>
              && VerifyMigration(db, m).0.Some?
              && VerifyMigration(db, m).1 == if VerifyMigration(db, m).0 == Some([]) then db.(stage := Verified) else db
  {
  }

  lemma MinuteHoldsIt(t: int)
    ensures MinuteOf(t) <= t < MinuteOf(t) + 60_000 && MinuteOf(t) % 60_000 == 0
  {
    RefreshWindows.FloorIsClose(t, Minute);
  }

  // ----- what the comparison will see ---------------------------------------------------------

  lemma {:induction false} SamplesAre(raw: seq<RawRow>, device: int, bound: int, p: Point)
    ensures p in SamplePoints(raw, device, bound)
       <==> exists i :: 0 <= i < |raw| && raw[i].device == device && MinuteOf(raw[i].time) < bound
                 && p == Point(raw[i].metric, MinuteOf(raw[i].time), raw[i].value)
  {
    if raw != [] {
      var before, row := raw[..|raw| - 1], raw[|raw| - 1];
      SamplesAre(before, device, bound, p);
      if i :| 0 <= i < |before| && before[i].device == device && MinuteOf(before[i].time) < bound
              && p == Point(before[i].metric, MinuteOf(before[i].time), before[i].value) {
        assert raw[i] == before[i];
      }
      if row.device == device && MinuteOf(row.time) < bound && p == Point(row.metric, MinuteOf(row.time), row.value) {
        assert raw[|raw| - 1] == row;
      }
      if i :| 0 <= i < |raw| && raw[i].device == device && MinuteOf(raw[i].time) < bound
              && p == Point(raw[i].metric, MinuteOf(raw[i].time), raw[i].value) {
        if i < |raw| - 1 { assert before[i] == raw[i]; }
      }
    }
  }

  /** A value in a minute below the bound that the comparison will see. */
  ghost predicate ForeseenPoint(db: Db, m: Migration, bound: int, p: Point)
    requires m.sourceId.Some?
  {
    exists row :: Foreseen(db, m, row) && row.device == m.device && MinuteOf(row.time) < bound
                  && p == Point(row.metric, MinuteOf(row.time), row.value)
  }

  lemma SamplesAreForeseen(db: Db, m: Migration, bound: int, p: Point)
    requires Active(db, m) && Unseen(db, m) && Distinct(m.ids)
    ensures p in SamplePoints(CleanRun(db, m).raw, m.device, bound) <==> ForeseenPoint(db, m, bound, p)
  {
    hide CleanRun, SamplePoints, MinuteOf, Foreseen, Unseen;
    var raw := CleanRun(db, m).raw;
    SamplesAre(raw, m.device, bound, p);
    if p in SamplePoints(raw, m.device, bound) {
      var i :| 0 <= i < |raw| && raw[i].device == m.device && MinuteOf(raw[i].time) < bound
               && p == Point(raw[i].metric, MinuteOf(raw[i].time), raw[i].value);
      assert raw[i] in raw;
      BackfillHoldsForeseen(db, m, raw[i]);
    }
    if ForeseenPoint(db, m, bound, p) {
      var row :| Foreseen(db, m, row) && row.device == m.device && MinuteOf(row.time) < bound
                 && p == Point(row.metric, MinuteOf(row.time), row.value);
      BackfillHoldsForeseen(db, m, row);
      var i :| 0 <= i < |raw| && raw[i] == row;
    }
  }

  predicate NoConfigYet(db: Db, m: Migration) {
    forall i :: 0 <= i < |db.raw| && db.raw[i].device == m.device ==> db.raw[i].metric !in m.config
  }

  lemma AddedIsNoConfig(us: seq<Unit>, m: Migration)
    ensures forall row :: row in AllRows(us, m) ==> row.metric !in m.config
  {
    RowsComeFrom(us, m);
    hide AllRows;
    forall row | row in AllRows(us, m) ensures row.metric !in m.config {
      var k :| 0 <= k < |us| && WrittenFrom(row, us[k].rows, us[k], m);
    }
  }

  lemma NoConfigIn(db: Db, added: seq<RawRow>, m: Migration)
    requires forall row :: row in added ==> row.metric !in m.config
    ensures NoConfigYet(db, m)
       <==> forall i :: 0 <= i < |db.raw + added| && (db.raw + added)[i].device == m.device ==>
              (db.raw + added)[i].metric !in m.config
  {
    var raw := db.raw + added;
    forall i | |db.raw| <= i < |raw| ensures raw[i].metric !in m.config { assert raw[i] in added; }
    assert forall i :: 0 <= i < |db.raw| ==> raw[i] == db.raw[i];
  }

  /** A run routes configuration away, so what is in the hypertable was there before. */
  lemma ConfigWasThere(db: Db, m: Migration)
    requires Active(db, m) && Unseen(db, m) && Distinct(m.ids)
    ensures CountConfigInRaw(CleanRun(db, m).raw, m.device, m.config) == 0 <==> NoConfigYet(db, m)
  {
    hide CleanRun, RowUnits, AllRows, Unseen, CountConfigInRaw;
    CleanRunWrites(db, m);
    var added := AllRows(RowUnits(m, m.sourceId.value), m);
    AddedIsNoConfig(RowUnits(m, m.sourceId.value), m);
    NoConfigRow(db.raw + added, m.device, m.config);
    NoConfigIn(db, added, m);
  }

  // ----- when a migration is verified, whatever it holds ----------------------------------------

  function Legacy(m: Migration): seq<Point>
    requires m.sourceId.Some? && m.replayTo.Some?
  {
    LegacyPoints(Relation(m, Minute), m, m.sourceId.value, m.replayTo.value)
  }

  /** A backfill that has reported `backfilled`, whatever killed it on the way. */
  ghost predicate Finished(db: Db, m: Migration, kills: seq<nat>) {
    && Active(db, m) && Unseen(db, m) && Distinct(m.ids) && m.replayTo.Some?
    && Attempts(db, m, kills).stage == Backfilled
  }

  ghost predicate IsVerified(db: Db, m: Migration, kills: seq<nat>) {
    var end := Attempts(db, m, kills);
    VerifyMigration(end, m) == (Some([]), end.(stage := Verified))
  }

  /** The values that the comparison will see, each once. */
  ghost predicate Lists(points: seq<Point>, db: Db, m: Migration)
    requires m.sourceId.Some? && m.replayTo.Some?
  {
    Distinct(points) && forall p :: p in points <==> ForeseenPoint(db, m, m.replayTo.value, p)
  }

  lemma VerifiedIsAccepted(db: Db, m: Migration, kills: seq<nat>)
    requires Finished(db, m, kills)
    ensures var samples := SamplePoints(CleanRun(db, m).raw, m.device, m.replayTo.value);
            IsVerified(db, m, kills) <==> CompareCoverage(ReadCoverage(Legacy(m), samples)) == [] && NoConfigYet(db, m)
  {
    hide CleanRun, LegacyPoints, SamplePoints, CountConfigInRaw, Attempts, ReadCoverage, CompareCoverage, NoConfigYet,
        Unseen;
    BackfillIsCrashEquivalent(db, m, kills);
    ConfigWasThere(db, m);
  }

  /**
   * Whether a migration will be verified, from what it starts with, for any source ids,
   * tiers and bound: there is something to compare, the values foreseen are one a
   * minute, on every metric-day as many as the legacy minute buckets and with their
   * mean, and no configuration was in the hypertable before.
   */
  lemma VerifiedAsForeseen(db: Db, m: Migration, kills: seq<nat>, points: seq<Point>)
    requires Finished(db, m, kills) && Lists(points, db, m)
    ensures IsVerified(db, m, kills)
       <==> && (Legacy(m) != [] || points != []) && OnePerMinute(points)
            && (forall metric: string, day: int :: SameDay(Legacy(m), points, metric, day))
            && NoConfigYet(db, m)
  {
    hide CleanRun, LegacyPoints, SamplePoints, ReadCoverage, CompareCoverage, Unrepeated, IsVerified, SameDay,
      NoConfigYet, OnePerMinute, ForeseenPoint;
    var samples := SamplePoints(CleanRun(db, m).raw, m.device, m.replayTo.value);
    VerifiedIsAccepted(db, m, kills);
    GateComparesDistinctSamples(Legacy(m), samples);
    UnrepeatedIsFaithful(samples);
    UnrepeatedCoverage(Legacy(m), samples);
    forall p ensures p in points <==> p in Unrepeated(samples) { SamplesAreForeseen(db, m, m.replayTo.value, p); }
    SameElements(points, Unrepeated(samples));
    SamePoints(Legacy(m), points, Unrepeated(samples));
  }

  lemma SamePoints(legacy: seq<Point>, x: seq<Point>, y: seq<Point>)
    requires multiset(x) == multiset(y)
    ensures (x == [] <==> y == []) && (OnePerMinute(x) <==> OnePerMinute(y))
    ensures forall metric: string, day: int :: SameDay(legacy, x, metric, day) <==> SameDay(legacy, y, metric, day)
  {
    hide PointsOf, SumPoints, OnePerMinute;
    if x == [] { assert |multiset(y)| == 0; }
    if y == [] { assert |multiset(x)| == 0; }
    if OnePerMinute(x) { OnePerMinuteReordered(y, x); }
    if OnePerMinute(y) { OnePerMinuteReordered(x, y); }
    forall metric: string, day: int ensures SameDay(legacy, x, metric, day) <==> SameDay(legacy, y, metric, day) {
      OrderIsIrrelevant(x, y, metric, day);
    }
  }

  /** A value on a metric-day for which the legacy minute tier has nothing is always refused. */
  lemma DayWithoutMinutesIsRefused(db: Db, m: Migration, kills: seq<nat>, p: Point)
    requires Finished(db, m, kills) && ForeseenPoint(db, m, m.replayTo.value, p)
    requires PointsOf(Legacy(m), p.metric, DayOf(p.minute)) == []
    ensures !IsVerified(db, m, kills)
  {
    hide CleanRun, LegacyPoints, SamplePoints, ReadCoverage, CompareCoverage, Unrepeated, IsVerified, PointsOf,
        SumPoints,
      NoConfigYet, OnePerMinute, ForeseenPoint;
    var samples := SamplePoints(CleanRun(db, m).raw, m.device, m.replayTo.value);
    VerifiedIsAccepted(db, m, kills);
    SamplesAreForeseen(db, m, m.replayTo.value, p);
    UnrepeatedIsFaithful(samples);
    InItsDay(Unrepeated(samples), p);
    GateComparesDistinctSamples(Legacy(m), samples);
    assert IsVerified(db, m, kills) ==> SameDay(Legacy(m), Unrepeated(samples), p.metric, DayOf(p.minute));
  }

  // ----- when a clean migration is verified -----------------------------------------------------

  predicate IsPoint(b: Bucket, m: Migration, id: string, bound: int, p: Point) {
    && b.id == id && b.time < bound && b.value == Some(p.value)
    && b.metric == p.metric && b.metric !in m.config && b.time == p.minute
  }

  /** The legacy side holds each comparable bucket, and nothing else. */
  lemma {:induction false} LegacyAre(rows: seq<Bucket>, m: Migration, id: string, bound: int, p: Point)
    ensures p in LegacyPoints(rows, m, id, bound) <==> exists i :: 0 <= i < |rows| && IsPoint(rows[i], m, id, bound, p)
  {
    if rows != [] {
      var before, last := rows[..|rows| - 1], rows[|rows| - 1];
      LegacyAre(before, m, id, bound, p);
      if i :| 0 <= i < |before| && IsPoint(before[i], m, id, bound, p) { assert IsPoint(rows[i], m, id, bound, p); }
      if IsPoint(last, m, id, bound, p) { assert IsPoint(rows[|rows| - 1], m, id, bound, p); }
      if i :| 0 <= i < |rows| && IsPoint(rows[i], m, id, bound, p) {
        if i < |rows| - 1 { assert before[i] == rows[i]; }
      }
    }
  }

  lemma {:induction false} LegacyOnePerMinute(rows: seq<Bucket>, m: Migration, id: string, bound: int)
    requires forall i, j :: 0 <= i < j < |rows| ==>
               !(rows[i].id == rows[j].id && rows[i].metric == rows[j].metric && rows[i].time == rows[j].time)
    ensures OnePerMinute(LegacyPoints(rows, m, id, bound))
  {
    if rows != [] {
      var before, last := rows[..|rows| - 1], rows[|rows| - 1];
      assert forall i :: 0 <= i < |before| ==> before[i] == rows[i];
      LegacyOnePerMinute(before, m, id, bound);
      if Comparable(last, m, id, bound) {
        var points := LegacyPoints(before, m, id, bound);
        forall k | 0 <= k < |points| ensures !(points[k].metric == last.metric && points[k].minute == last.time) {
          LegacyAre(before, m, id, bound, points[k]);
          assert points[k] in points;
          var i :| 0 <= i < |before| && IsPoint(before[i], m, id, bound, points[k]);
          assert rows[i] == before[i];
        }
      }
    }
  }

  /** The legacy minute tier has one bucket a minute, metric and id. */
  predicate MinutesAreUnique(m: Migration) {
    forall i, j :: 0 <= i < j < |Relation(m, Minute)| ==>
      !(Relation(m, Minute)[i].id == Relation(m, Minute)[j].id
          && Relation(m, Minute)[i].metric == Relation(m, Minute)[j].metric
          && Relation(m, Minute)[i].time == Relation(m, Minute)[j].time)
  }

  /** Every legacy bucket that is compared will be there. */
  ghost predicate NothingLost(db: Db, m: Migration)
    requires m.sourceId.Some? && m.replayTo.Some?
  {
    forall p :: p in Legacy(m) ==> ForeseenPoint(db, m, m.replayTo.value, p)
  }

  /** Whatever will be there in a minute below the bound repeats the legacy bucket of that minute. */
  ghost predicate NothingNew(db: Db, m: Migration)
    requires m.sourceId.Some? && m.replayTo.Some?
  {
    forall p :: ForeseenPoint(db, m, m.replayTo.value, p) ==> p in Legacy(m)
  }

  /** Both, over a list of the values that the comparison will see. */
  lemma Listed(db: Db, m: Migration, points: seq<Point>)
    requires m.sourceId.Some? && m.replayTo.Some? && Lists(points, db, m)
    ensures NothingLost(db, m) <==> forall p :: p in Legacy(m) ==> p in points
    ensures NothingNew(db, m) <==> forall p :: p in points ==> p in Legacy(m)
  {
    hide Legacy, ForeseenPoint;
  }

  /**
   * When nothing is lost, a migration is verified exactly when nothing is new; when
   * nothing is new, exactly when nothing is lost; besides, there has to be a legacy
   * bucket to compare, and no configuration in the hypertable before.
   */
  lemma CleanMigrationVerifiedExactly(db: Db, m: Migration, kills: seq<nat>)
    requires Finished(db, m, kills) && MinutesAreUnique(m) && (NothingLost(db, m) || NothingNew(db, m))
    ensures IsVerified(db, m, kills)
       <==> Legacy(m) != [] && NothingLost(db, m) && NothingNew(db, m) && NoConfigYet(db, m)
  {
    hide CleanRun, SamplePoints, LegacyPoints, ReadCoverage, CompareCoverage, IsVerified, NoConfigYet, OnePerMinute,
      ForeseenPoint, MinutesAreUnique;
    var samples := SamplePoints(CleanRun(db, m).raw, m.device, m.replayTo.value);
    VerifiedIsAccepted(db, m, kills);
    LegacyIsOnePerMinute(m);
    forall p ensures p in samples <==> ForeseenPoint(db, m, m.replayTo.value, p) {
      SamplesAreForeseen(db, m, m.replayTo.value, p);
    }
    if NothingLost(db, m) { GateOverReplay(Legacy(m), samples); } else { GateWithinLegacy(Legacy(m), samples); }
    if NothingNew(db, m) { GateWithinLegacy(Legacy(m), samples); }
  }

  /**
   * The legacy side of the comparison is one source id, the new side the whole device:
   * a value that another id writes into a minute in which the recorded id does not have
   * it refuses a migration that loses nothing.
   */
  lemma OtherIdsAreRefused(db: Db, m: Migration, kills: seq<nat>, k: nat, tier: Tier, i: int, row: RawRow)
    requires Finished(db, m, kills) && MinutesAreUnique(m) && NothingLost(db, m)
    requires k < |m.ids| && BucketWrites(m, m.ids[k], tier, i, row)
    requires MinuteOf(row.time) < m.replayTo.value && Point(row.metric, MinuteOf(row.time), row.value) !in Legacy(m)
    ensures !IsVerified(db, m, kills)
  {
    hide IsVerified, MinuteOf, BucketWrites, NothingLost, MinutesAreUnique, Legacy, Attempts, Unseen;
    CleanMigrationVerifiedExactly(db, m, kills);
    BucketsAreOfDevice(m, m.ids[k], tier, i, row);
    assert Foreseen(db, m, row);
    assert ForeseenPoint(db, m, m.replayTo.value, Point(row.metric, MinuteOf(row.time), row.value));
  }

  lemma BucketsAreOfDevice(m: Migration, id: string, tier: Tier, i: int, row: RawRow)
    requires BucketWrites(m, id, tier, i, row)
    ensures row.device == m.device
  {
  }

  lemma LegacyIsOnePerMinute(m: Migration)
    requires m.sourceId.Some? && m.replayTo.Some? && MinutesAreUnique(m)
    ensures OnePerMinute(Legacy(m))
  {
    LegacyOnePerMinute(Relation(m, Minute), m, m.sourceId.value, m.replayTo.value);
  }

  // ----- in terms of the windows ------------------------------------------------------------------

  /** The plan gives every legacy minute bucket that is compared to the minute tier. */
  predicate MinuteTierAnswers(m: Migration)
    requires m.sourceId.Some? && m.replayTo.Some?
  {
    forall i :: 0 <= i < |Relation(m, Minute)|
                && Comparable(Relation(m, Minute)[i], m, m.sourceId.value, m.replayTo.value) ==>
      PlanAnswers(m, m.sourceId.value, Minute, Relation(m, Minute)[i].time)
  }

  predicate Replays(m: Migration, id: string, tier: Tier, b: Bucket) {
    b.id == id && b.value.Some? && b.metric !in m.config && PlanAnswers(m, id, tier, b.time)
  }

  /** One source id; minute buckets on the minute; and below the bound the plan replays no coarser bucket. */
  predicate PlainTiers(m: Migration)
    requires m.sourceId.Some? && m.replayTo.Some?
  {
    var id, bound := m.sourceId.value, m.replayTo.value;
    && SourceOrder(m, id) == [id] && MinutesAreUnique(m)
    && (forall i :: 0 <= i < |Relation(m, Minute)| ==> Relation(m, Minute)[i].time % MINUTE_MS == 0)
    && (forall tier: Tier, i :: (tier == Hourly || tier == Daily) && 0 <= i < |Relation(m, tier)|
                                && Replays(m, id, tier, Relation(m, tier)[i]) ==>
          MinuteOf(Relation(m, tier)[i].time) >= bound)
  }

  /** Besides, nothing that was there or is carried lies in a minute below the bound. */
  predicate Plain(db: Db, m: Migration)
    requires m.sourceId.Some? && m.replayTo.Some?
  {
    && PlainTiers(m)
    && (forall i :: 0 <= i < |m.legacyRaw| && CarriedSample(m.legacyRaw[i], m, m.sourceId.value) ==>
          MinuteOf(m.legacyRaw[i].time) >= m.replayTo.value)
    && (forall i :: 0 <= i < |db.raw| && db.raw[i].device == m.device ==> MinuteOf(db.raw[i].time) >= m.replayTo.value)
  }

  lemma OnTheMinute(t: int)
    requires t % MINUTE_MS == 0
    ensures MinuteOf(t) == t
  {
  }

  /** In a plain migration the comparison will see the minute buckets that the minute tier answers. */
  lemma PlainPoints(db: Db, m: Migration, p: Point)
    requires m.sourceId.Some? && m.replayTo.Some? && Plain(db, m)
    ensures var id, bound := m.sourceId.value, m.replayTo.value;
            ForeseenPoint(db, m, bound, p)
            <==> exists i :: 0 <= i < |Relation(m, Minute)| && IsPoint(Relation(m, Minute)[i], m, id, bound, p)
                             && PlanAnswers(m, id, Minute, Relation(m, Minute)[i].time)
  {
    hide MinuteOf, PlanAnswers, MinutesAreUnique;
    var id, bound, rows := m.sourceId.value, m.replayTo.value, Relation(m, Minute);
    if ForeseenPoint(db, m, bound, p) {
      var row :| Foreseen(db, m, row) && row.device == m.device && MinuteOf(row.time) < bound
                 && p == Point(row.metric, MinuteOf(row.time), row.value);
      assert ReplayWrites(m, [id], row);
      var k, tier: Tier, i: int :| 0 <= k < |[id]| && BucketWrites(m, [id][k], tier, i, row);
      assert Replays(m, id, tier, Relation(m, tier)[i]);
      assert tier == Minute;
      OnTheMinute(rows[i].time);
      assert IsPoint(rows[i], m, id, bound, p);
    }
    if i :| 0 <= i < |rows| && IsPoint(rows[i], m, id, bound, p) && PlanAnswers(m, id, Minute, rows[i].time) {
      var row := RawOf(rows[i], Some(BucketWidthMs(Minute)), m.device);
      OnTheMinute(rows[i].time);
      assert BucketWrites(m, [id][0], Minute, i, row);
      assert Foreseen(db, m, row);
    }
  }

  lemma PlainIsNotNew(db: Db, m: Migration)
    requires m.sourceId.Some? && m.replayTo.Some? && Plain(db, m)
    ensures NothingNew(db, m) && (NothingLost(db, m) <==> MinuteTierAnswers(m))
  {
    hide Plain, PlanAnswers, ForeseenPoint;
    var id, bound, rows := m.sourceId.value, m.replayTo.value, Relation(m, Minute);
    forall p
      ensures p in Legacy(m) <==> exists i :: 0 <= i < |rows| && IsPoint(rows[i], m, id, bound, p)
      ensures ForeseenPoint(db, m, bound, p)
         <==> exists i ::
                0 <= i < |rows| && IsPoint(rows[i], m, id, bound, p) && PlanAnswers(m, id, Minute, rows[i].time)
    {
      LegacyAre(rows, m, id, bound, p);
      PlainPoints(db, m, p);
    }
    if NothingLost(db, m) {
      forall i | 0 <= i < |rows| && Comparable(rows[i], m, id, bound) ensures PlanAnswers(m, id, Minute, rows[i].time) {
        var p := Point(rows[i].metric, rows[i].time, rows[i].value.value);
        assert IsPoint(rows[i], m, id, bound, p);
        assert p in Legacy(m);
      }
    }
  }

  /**
   * A plain migration, in terms of what its tiers hold: it is verified if and only if
   * there is a bucket to compare, the minute tier answers every one of them, and no
   * configuration was in the hypertable before.
   */
  lemma PlainMigrationVerifiedExactly(db: Db, m: Migration, kills: seq<nat>)
    requires Finished(db, m, kills) && Plain(db, m)
    ensures IsVerified(db, m, kills) <==> Legacy(m) != [] && MinuteTierAnswers(m) && NoConfigYet(db, m)
  {
    hide LegacyPoints, IsVerified, NoConfigYet, ForeseenPoint, MinuteTierAnswers, NothingLost, NothingNew;
    PlainIsNotNew(db, m);
    assert MinutesAreUnique(m);
    CleanMigrationVerifiedExactly(db, m, kills);
  }

  lemma FloorPast(t: int, bound: int)
    requires bound % MINUTE_MS == 0 && t >= bound
    ensures MinuteOf(t) >= bound
  {
  }

  /** A bound on a whole minute makes it plain, with the samples and the new rows from the bound on. */
  lemma WholeMinuteBoundIsVerified(db: Db, m: Migration, kills: seq<nat>)
    requires Finished(db, m, kills) && PlainTiers(m) && m.replayTo.value % MINUTE_MS == 0
    requires forall i :: 0 <= i < |m.legacyRaw| && m.legacyRaw[i].id == m.sourceId.value ==>
               m.legacyRaw[i].time >= m.replayTo.value
    requires forall i :: 0 <= i < |db.raw| && db.raw[i].device == m.device ==> db.raw[i].time >= m.replayTo.value
    ensures IsVerified(db, m, kills) <==> Legacy(m) != [] && MinuteTierAnswers(m) && NoConfigYet(db, m)
  {
    hide PlainTiers, MinuteOf, Legacy, IsVerified, MinuteTierAnswers, NoConfigYet;
    forall t | t >= m.replayTo.value ensures MinuteOf(t) >= m.replayTo.value { FloorPast(t, m.replayTo.value); }
    assert Plain(db, m);
    PlainMigrationVerifiedExactly(db, m, kills);
  }

  /** A run from the beginning to the end. */
  lemma OneRunFinishes(db: Db, m: Migration)
    requires Active(db, m) && Unseen(db, m) && Distinct(m.ids) && m.replayTo.Some?
    ensures Finished(db, m, [|Program(db, m, m.sourceId.value)|])
  {
    hide Program, Attempts, CleanRun, Unseen;
    var n := |Program(db, m, m.sourceId.value)|;
    BackfillIsCrashEquivalent(db, m, []);
    assert [] + [n] == [n];
    BackfillIsCrashEquivalent(db, m, [n]);
  }
}
