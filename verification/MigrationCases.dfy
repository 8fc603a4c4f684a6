/**
 * Migrations worked out in full: two that the drop gate refuses although nothing is
 * wrong, one that it verifies although a day has a hole, one that it verifies although
 * a minute is lost, and one that leaves a wrong value in the configuration log.
 */
module MigrationCases {
  import opened Wrappers
  import opened Database
  import opened Spans
  import opened Replay
  import opened Backfill
  import opened BackfillSafety
  import opened BackfillGuarantees
  import opened BackfillContents
  import opened BackfillConfig
  import opened BackfillOrder
  import opened DropGate
  import opened MigrationGate

  lemma UntouchedIsUnseen(m: Migration)
    requires m.sourceId.Some?
    ensures Unseen(Untouched(), m)
  {
    hide RowUnits, RefreshKey, KeyOf;
  }

  function Untouched(): Db { Db([], [], {}, Cutover, {}) }

  // ----- a bound inside a minute -----------------------------------------------------------------

  /** Two minute buckets, and retained samples from half a second past the second minute. */
  function SplitMinute(): Migration {
    Migration(
      Some("p"), Some(60_500), Some(60_500), 1, {}, None, DAY_MS,
      [Bucket(60_500, "p", "x", Some(3.0)), Bucket(90_000, "p", "x", Some(1.0))],
      map[Minute := [Bucket(0, "p", "x", Some(1.0)), Bucket(60_000, "p", "x", Some(2.0))]], ["p"])
  }

  lemma SplitMinuteWindows()
    ensures TierWindows(SplitMinute(), "p", TIERS) == [Window(Minute, 0, 120_000)]
  {
    var m := SplitMinute();
    var rows := Relation(m, Minute);
    assert rows == [Bucket(0, "p", "x", Some(1.0)), Bucket(60_000, "p", "x", Some(2.0))];
    assert rows[1..] == [rows[1]] && rows[1..][1..] == [];
    assert OfId(rows[1..], "p") == [rows[1]];
    assert OfId(rows, "p") == rows;
    assert First(rows) == 0 && Last(rows) == 60_000;
    assert TIERS[1..] == [Hourly, Daily] && TIERS[1..][1..] == [Daily] && TIERS[1..][1..][1..] == [];
    assert TierWindows(m, "p", []) == [];
    assert TierWindows(m, "p", [Daily]) == [];
    assert TierWindows(m, "p", [Hourly, Daily]) == [];
  }

  lemma SplitMinuteAnswers(t: int)
    requires 0 <= t < 60_500
    ensures PlanAnswers(SplitMinute(), "p", Minute, t)
  {
    SplitMinuteWindows();
    hide TierWindows;
    var w := Window(Minute, 0, 120_000);
    assert [w][1..] == [] && forall tier: Tier :: WindowOf([], tier) == None;
    assert forall tier: Tier :: WindowOf([w], tier) == if tier == Minute then Some(w) else None;
  }

  /** Both buckets are replayed. */
  lemma SplitMinuteKeepsAll()
    ensures NothingLost(Untouched(), SplitMinute()) && MinutesAreUnique(SplitMinute())
  {
    hide PlanAnswers, LegacyPoints;
    var m := SplitMinute();
    var rows := Relation(m, Minute);
    forall p | p in Legacy(m) ensures ForeseenPoint(Untouched(), m, 60_500, p) {
      LegacyAre(rows, m, "p", 60_500, p);
      var i :| 0 <= i < |rows| && IsPoint(rows[i], m, "p", 60_500, p);
      SplitMinuteAnswers(rows[i].time);
      var row := RawOf(rows[i], Some(60_000), 1);
      assert BucketWrites(m, ["p"][0], Minute, i, row);
      assert Foreseen(Untouched(), m, row);
      OnTheMinute(rows[i].time);
    }
  }

  lemma SplitMinuteIsNew()
    ensures !NothingNew(Untouched(), SplitMinute())
  {
    hide PlanAnswers, LegacyPoints;
    var m := SplitMinute();
    var row, p := RawOf(m.legacyRaw[0], None, 1), Point("x", 60_000, 3.0);
    assert CarriedSample(m.legacyRaw[0], m, "p");
    assert Foreseen(Untouched(), m, row);
    assert ForeseenPoint(Untouched(), m, 60_500, p);
    LegacyAre(Relation(m, Minute), m, "p", 60_500, p);
  }

  /**
   * The bound falls inside a minute: its bucket is replayed, the carried samples of
   * the same minute land in it, and a migration with nothing wrong is not verified.
   */
  lemma SplitMinuteIsRefused()
    ensures var db, m := Untouched(), SplitMinute();
            var kills := [|Program(db, m, "p")|];
            && Finished(db, m, kills) && NothingLost(db, m) && NoConfigYet(db, m)
            && (forall i :: 0 <= i < |m.legacyRaw| ==> m.legacyRaw[i].time >= 60_500)
            && !IsVerified(db, m, kills)
  {
    hide Program, Finished, IsVerified, NothingLost, NothingNew, LegacyPoints;
    UntouchedIsUnseen(SplitMinute());
    OneRunFinishes(Untouched(), SplitMinute());
    SplitMinuteKeepsAll();
    SplitMinuteIsNew();
    CleanMigrationVerifiedExactly(Untouched(), SplitMinute(), [|Program(Untouched(), SplitMinute(), "p")|]);
  }

  // ----- a history that begins inside a day ---------------------------------------------------------

  const NOON := 43_200_000

  /** From noon of the first day to one o'clock of the second, with every tier 1.2.0 kept. */
  function FromNoon(): Migration {
    Migration(
      Some("p"), None, Some(DAY_MS + 3_600_000), 1, {}, None, DAY_MS, [],
      map[Minute := [Bucket(NOON, "p", "x", Some(1.0)), Bucket(DAY_MS + 3_600_000, "p", "x", Some(2.0))],
          Hourly := [Bucket(NOON, "p", "x", Some(1.0)), Bucket(DAY_MS + 3_600_000, "p", "x", Some(2.0))],
          Daily := [Bucket(0, "p", "x", Some(1.0)), Bucket(DAY_MS, "p", "x", Some(2.0))]], ["p"])
  }

  lemma TwoOfId(a: Bucket, b: Bucket, id: string)
    requires a.id == id && b.id == id && a.time <= b.time
    ensures OfId([a, b], id) == [a, b] && First([a, b]) == a.time && Last([a, b]) == b.time
  {
    assert [a, b][1..] == [b] && [b][1..] == [] && OfId([], id) == [] && OfId([b], id) == [b];
  }

  lemma FromNoonWindows()
    ensures TierWindows(FromNoon(), "p", TIERS)
         == [Window(Minute, NOON, DAY_MS + 3_660_000), Window(Hourly, NOON, DAY_MS + 7_200_000),
             Window(Daily, 0, 2 * DAY_MS)]
  {
    hide OfId, First, Last;
    var m := FromNoon();
    TwoOfId(Relation(m, Minute)[0], Relation(m, Minute)[1], "p");
    TwoOfId(Relation(m, Hourly)[0], Relation(m, Hourly)[1], "p");
    TwoOfId(Relation(m, Daily)[0], Relation(m, Daily)[1], "p");
    assert Relation(m, Minute) == [Relation(m, Minute)[0], Relation(m, Minute)[1]];
    assert Relation(m, Hourly) == [Relation(m, Hourly)[0], Relation(m, Hourly)[1]];
    assert Relation(m, Daily) == [Relation(m, Daily)[0], Relation(m, Daily)[1]];
    assert TIERS[1..] == [Hourly, Daily] && TIERS[1..][1..] == [Daily] && TIERS[1..][1..][1..] == [];
    assert TierWindows(m, "p", []) == [];
    assert TierWindows(m, "p", [Daily]) == [Window(Daily, 0, 2 * DAY_MS)];
    assert TierWindows(m, "p", [Hourly, Daily])
        == [Window(Hourly, NOON, DAY_MS + 7_200_000), Window(Daily, 0, 2 * DAY_MS)];
  }

  lemma ThreeWindows(a: Window, b: Window, c: Window)
    requires a.tier == Minute && b.tier == Hourly && c.tier == Daily
    ensures WindowOf([a, b, c], Minute) == Some(a) && WindowOf([a, b, c], Hourly) == Some(b)
         && WindowOf([a, b, c], Daily) == Some(c)
    ensures FirstFrom([a, b, c]) == Min(a.from, Min(b.from, c.from)) && LastTo([a, b, c]) == Max(a.to, Max(b.to, c.to))
  {
    assert [a, b, c][1..] == [b, c] && [b, c][1..] == [c] && [c][1..] == [];
    assert FirstFrom([c]) == c.from && LastTo([c]) == c.to;
    assert FirstFrom([b, c]) == Min(b.from, c.from) && LastTo([b, c]) == Max(b.to, c.to);
    assert WindowOf([c], Daily) == Some(c) && WindowOf([b, c], Hourly) == Some(b) && WindowOf([b, c], Daily) == Some(c);
  }

  /** The morning before the history is a gap; from noon on the minute tier answers alone. */
  lemma FromNoonAnswers(tier: Tier, t: int)
    ensures PlanAnswers(FromNoon(), "p", tier, t) <==> tier == Minute && NOON <= t < DAY_MS + 3_600_000
  {
    var a, b, c := Window(Minute, NOON, DAY_MS + 3_660_000), Window(Hourly, NOON, DAY_MS + 7_200_000),
        Window(Daily, 0, 2 * DAY_MS);
    FromNoonWindows();
    ThreeWindows(a, b, c);
    hide TierWindows, WindowOf, FirstFrom, LastTo;
    var end := DAY_MS + 3_600_000;
    if 0 <= t < end { assert Serves([a, b, c], Minute, DayPieceOf(0, end, t), 0, end); }
  }

  lemma FromNoonIsPlain()
    ensures Plain(Untouched(), FromNoon()) && MinuteTierAnswers(FromNoon())
  {
    var m := FromNoon();
    forall tier: Tier, t ensures PlanAnswers(m, "p", tier, t) <==> tier == Minute && NOON <= t < DAY_MS + 3_600_000 {
      FromNoonAnswers(tier, t);
    }
    hide PlanAnswers, LegacyPoints;
  }

  lemma FromNoonHasMinutes()
    ensures Legacy(FromNoon()) != []
  {
    hide LegacyPoints;
    var m, p := FromNoon(), Point("x", NOON, 1.0);
    assert IsPoint(Relation(m, Minute)[0], m, "p", DAY_MS + 3_600_000, p);
    LegacyAre(Relation(m, Minute), m, "p", DAY_MS + 3_600_000, p);
  }

  /**
   * A history that begins inside a day, which its daily buckets hold as well: the
   * plan leaves the morning to nobody, and the migration is verified.
   */
  lemma FromNoonIsVerified()
    ensures var db, m := Untouched(), FromNoon();
            && (forall tier: Tier :: !PlanAnswers(m, "p", tier, 0))
            && IsVerified(db, m, [|Program(db, m, "p")|])
  {
    hide Program, Finished, IsVerified, PlanAnswers, Plain, MinuteTierAnswers, Legacy;
    forall tier: Tier ensures !PlanAnswers(FromNoon(), "p", tier, 0) { FromNoonAnswers(tier, 0); }
    UntouchedIsUnseen(FromNoon());
    OneRunFinishes(Untouched(), FromNoon());
    FromNoonIsPlain();
    FromNoonHasMinutes();
    PlainMigrationVerifiedExactly(Untouched(), FromNoon(), [|Program(Untouched(), FromNoon(), "p")|]);
  }

  // ----- a loss the comparison cannot see ------------------------------------------------------------

  /**
   * The minute tier begins at noon of the second day, so the daily tier answers that
   * day, with one bucket of the mean that the one minute bucket of the day has.
   */
  function OneMinuteDay(daily: real): Migration {
    Migration(
      Some("p"), None, Some(2 * DAY_MS + NOON + 60_000), 1, {}, None, DAY_MS, [],
      map[Minute := [Bucket(DAY_MS + NOON, "p", "x", Some(5.0)), Bucket(2 * DAY_MS + NOON, "p", "x", Some(6.0))],
          Daily := [Bucket(0, "p", "x", None), Bucket(DAY_MS, "p", "x", Some(daily))]], ["p"])
  }

  lemma OneMinuteDayWindows(daily: real)
    ensures TierWindows(OneMinuteDay(daily), "p", TIERS)
         == [Window(Minute, DAY_MS + NOON, 2 * DAY_MS + NOON + 60_000), Window(Daily, 0, 2 * DAY_MS)]
  {
    hide OfId, First, Last;
    var m := OneMinuteDay(daily);
    TwoOfId(Relation(m, Minute)[0], Relation(m, Minute)[1], "p");
    TwoOfId(Relation(m, Daily)[0], Relation(m, Daily)[1], "p");
    assert Relation(m, Minute) == [Relation(m, Minute)[0], Relation(m, Minute)[1]];
    assert Relation(m, Daily) == [Relation(m, Daily)[0], Relation(m, Daily)[1]];
    assert OfId([], "p") == [] by { NoneOfId(); }
    assert TIERS[1..] == [Hourly, Daily] && TIERS[1..][1..] == [Daily] && TIERS[1..][1..][1..] == [];
    assert TierWindows(m, "p", []) == [];
    assert TierWindows(m, "p", [Daily]) == [Window(Daily, 0, 2 * DAY_MS)];
    assert TierWindows(m, "p", [Hourly, Daily]) == [Window(Daily, 0, 2 * DAY_MS)];
  }

  lemma NoneOfId()
    ensures OfId([], "p") == []
  {
  }

  lemma OneMinuteDayAnswers(daily: real, tier: Tier, t: int)
    ensures PlanAnswers(OneMinuteDay(daily), "p", tier, t)
       <==> if tier == Daily then 0 <= t < 2 * DAY_MS
            else tier == Minute && 2 * DAY_MS <= t < 2 * DAY_MS + NOON + 60_000
  {
    var a, c := Window(Minute, DAY_MS + NOON, 2 * DAY_MS + NOON + 60_000), Window(Daily, 0, 2 * DAY_MS);
    OneMinuteDayWindows(daily);
    assert [a, c][1..] == [c] && [c][1..] == [] && forall x: Tier :: WindowOf([], x) == None;
    assert forall x: Tier :: WindowOf([c], x) == if x == Daily then Some(c) else None;
    assert forall x: Tier :: WindowOf([a, c], x) == if x == Minute then Some(a) else if x == Daily then Some(c)
        else None;
    assert FirstFrom([c]) == 0 && LastTo([c]) == 2 * DAY_MS;
    assert FirstFrom([a, c]) == 0 && LastTo([a, c]) == 2 * DAY_MS + NOON + 60_000;
    hide TierWindows, WindowOf, FirstFrom, LastTo;
    var end := 2 * DAY_MS + NOON + 60_000;
    if 0 <= t < 2 * DAY_MS {
      assert !Serves([a, c], Minute, DayPieceOf(0, end, t), 0, end)
          && !Serves([a, c], Hourly, DayPieceOf(0, end, t), 0, end);
      assert Serves([a, c], Daily, DayPieceOf(0, end, t), 0, end);
    } else if 2 * DAY_MS <= t < end {
      assert Serves([a, c], Minute, DayPieceOf(0, end, t), 0, end);
    }
  }

  function Kept(daily: real): seq<Point> { [Point("x", DAY_MS, daily), Point("x", 2 * DAY_MS + NOON, 6.0)] }

  /** The rows of the run: the second day's midnight bucket, and the minute of the third day. */
  function MidnightRow(daily: real): RawRow { RawRow(DAY_MS, daily, Some(86_400_000), 1, "x") }

  function LastRow(): RawRow { RawRow(2 * DAY_MS + NOON, 6.0, Some(60_000), 1, "x") }

  lemma OneMinuteDayWrites(daily: real, tier: Tier, i: int, row: RawRow)
    ensures BucketWrites(OneMinuteDay(daily), "p", tier, i, row)
       <==> i == 1 && ((tier == Daily && row == MidnightRow(daily)) || (tier == Minute && row == LastRow()))
  {
    if tier != Raw && 0 <= i < |Relation(OneMinuteDay(daily), tier)| {
      OneMinuteDayAnswers(daily, tier, Relation(OneMinuteDay(daily), tier)[i].time);
    }
    hide PlanAnswers;
  }

  lemma OneMinuteDayRows(daily: real, row: RawRow)
    ensures Foreseen(Untouched(), OneMinuteDay(daily), row) <==> row == MidnightRow(daily) || row == LastRow()
  {
    var m := OneMinuteDay(daily);
    forall tier: Tier, i: int
      ensures BucketWrites(m, "p", tier, i, row)
         <==> i == 1 && ((tier == Daily && row == MidnightRow(daily)) || (tier == Minute && row == LastRow()))
    {
      OneMinuteDayWrites(daily, tier, i, row);
    }
    hide BucketWrites;
    assert !CarryWrites(m, "p", row) && row !in Untouched().raw;
    if ReplayWrites(m, ["p"], row) {
      var k, tier: Tier, i: int :| 0 <= k < |["p"]| && BucketWrites(m, ["p"][k], tier, i, row);
      assert BucketWrites(m, "p", tier, i, row);
    }
    if row == MidnightRow(daily) { assert BucketWrites(m, ["p"][0], Daily, 1, row); }
    if row == LastRow() { assert BucketWrites(m, ["p"][0], Minute, 1, row); }
  }

  lemma OneMinuteDayPoints(daily: real, p: Point)
    ensures ForeseenPoint(Untouched(), OneMinuteDay(daily), 2 * DAY_MS + NOON + 60_000, p) <==> p in Kept(daily)
  {
    forall row ensures Foreseen(Untouched(), OneMinuteDay(daily), row)
        <==> row == MidnightRow(daily) || row == LastRow() {
      OneMinuteDayRows(daily, row);
    }
    hide Foreseen;
    assert MinuteOf(MidnightRow(daily).time) == DAY_MS && MinuteOf(LastRow().time) == 2 * DAY_MS + NOON;
    if p == Kept(daily)[0] { assert Foreseen(Untouched(), OneMinuteDay(daily), MidnightRow(daily)); }
    if p == Kept(daily)[1] { assert Foreseen(Untouched(), OneMinuteDay(daily), LastRow()); }
  }

  lemma OneMinuteDayLegacy(daily: real)
    ensures Legacy(OneMinuteDay(daily)) == [Point("x", DAY_MS + NOON, 5.0), Point("x", 2 * DAY_MS + NOON, 6.0)]
  {
    var m, bound := OneMinuteDay(daily), 2 * DAY_MS + NOON + 60_000;
    var rows := Relation(m, Minute);
    assert rows[..1] == [rows[0]] && rows[..1][..0] == [];
    assert LegacyPoints([], m, "p", bound) == [];
    assert LegacyPoints([rows[0]], m, "p", bound) == [Point("x", DAY_MS + NOON, 5.0)];
  }

  lemma TwoPoints(a: Point, b: Point, metric: string, day: int)
    ensures PointsOf([a, b], metric, day)
         == (if a.metric == metric && DayOf(a.minute) == day then [a] else [])
            + (if b.metric == metric && DayOf(b.minute) == day then [b] else [])
  {
    assert [a, b][..1] == [a] && [a][..0] == [];
    assert PointsOf([], metric, day) == [];
  }

  lemma OneSum(p: Point)
    ensures SumPoints([p]) == p.value
  {
    assert [p][..0] == [] && SumPoints([]) == 0.0;
  }

  /** A value moves within its day, and may change: the counts stay, and the mean moves as it does. */
  lemma MovedWithinDay(a: Point, b: Point, moved: Point, metric: string, day: int)
    requires DayOf(a.minute) != DayOf(b.minute) && DayOf(a.minute) == DayOf(moved.minute) && a.metric == moved.metric
    ensures SameDay([a, b], [moved, b], metric, day)
       <==> (metric == a.metric && day == DayOf(a.minute) ==> Close(a.value, moved.value))
  {
    TwoPoints(a, b, metric, day);
    TwoPoints(moved, b, metric, day);
    OneSum(a);
    OneSum(b);
    OneSum(moved);
    hide PointsOf, SumPoints, DayOf;
    var before, after := PointsOf([a, b], metric, day), PointsOf([moved, b], metric, day);
    assert (before == [] && after == []) || (before == [a] && after == [moved]) || (before == [b] && after == [b]);
    assert before == [a] <==> metric == a.metric && day == DayOf(a.minute);
  }

  lemma OneMinuteDayIsListed(daily: real)
    ensures Lists(Kept(daily), Untouched(), OneMinuteDay(daily))
  {
    forall p ensures ForeseenPoint(Untouched(), OneMinuteDay(daily), 2 * DAY_MS + NOON + 60_000, p)
        <==> p in Kept(daily) {
      OneMinuteDayPoints(daily, p);
    }
    hide ForeseenPoint;
  }

  lemma OneMinuteDayIsNotKept(daily: real)
    ensures !NothingLost(Untouched(), OneMinuteDay(daily)) && !NothingNew(Untouched(), OneMinuteDay(daily))
  {
    hide Lists, NothingLost, NothingNew, Legacy;
    OneMinuteDayIsListed(daily);
    OneMinuteDayLegacy(daily);
    Listed(Untouched(), OneMinuteDay(daily), Kept(daily));
    assert Legacy(OneMinuteDay(daily))[0] !in Kept(daily) && Kept(daily)[0] !in Legacy(OneMinuteDay(daily));
  }

  /**
   * Counts and means by the day cannot tell a minute from the midnight bucket of its
   * day: the noon bucket of value 5 is not replayed, and the migration is verified all
   * the same, if and only if the midnight bucket has that value, up to noise.
   */
  lemma MidnightBucketDecides(daily: real)
    ensures var db, m := Untouched(), OneMinuteDay(daily);
            && !NothingLost(db, m) && !NothingNew(db, m)
            && (IsVerified(db, m, [|Program(db, m, "p")|]) <==> 4.999999995 <= daily <= 5.000000005)
  {
    hide Program, Finished, IsVerified, Legacy, SameDay, Lists, NothingLost, NothingNew, Unseen;
    var m := OneMinuteDay(daily);
    OneMinuteDayLegacy(daily);
    OneMinuteDayIsListed(daily);
    OneMinuteDayIsNotKept(daily);
    var legacy, kept := Legacy(m), Kept(daily);
    forall metric: string, day: int
      ensures SameDay(legacy, kept, metric, day) <==> (metric == "x" && day == 1 ==> Close(5.0, daily))
    {
      MovedWithinDay(legacy[0], kept[1], kept[0], metric, day);
    }
    assert Close(5.0, daily) <==> SameDay(legacy, kept, "x", 1);
    UntouchedIsUnseen(m);
    OneRunFinishes(Untouched(), m);
    VerifiedAsForeseen(Untouched(), m, [|Program(Untouched(), m, "p")|], kept);
  }

  /** One migration is verified with a minute lost; the other, one value apart, is refused for its mean. */
  lemma LossIsMasked()
    ensures var db, same, drifted := Untouched(), OneMinuteDay(5.0), OneMinuteDay(5.25);
            && !NothingLost(db, same) && IsVerified(db, same, [|Program(db, same, "p")|])
            && !IsVerified(db, drifted, [|Program(db, drifted, "p")|])
  {
    hide Program, IsVerified, NothingLost, OneMinuteDay;
    MidnightBucketDecides(5.0);
    MidnightBucketDecides(5.25);
  }

  // ----- a profile that was renamed ------------------------------------------------------------------

  /** The first minute under the old name of the profile, the second under the one that is recorded. */
  function Renamed(): Migration {
    Migration(
      Some("p"), None, Some(120_000), 1, {}, None, DAY_MS, [],
      map[Minute := [Bucket(0, "q", "x", Some(1.0)), Bucket(60_000, "p", "x", Some(2.0))]], ["q", "p"])
  }

  lemma RenamedWindow(id: string, at: int)
    requires (id == "q" && at == 0) || (id == "p" && at == 60_000)
    ensures TierWindows(Renamed(), id, TIERS) == [Window(Minute, at, at + 60_000)]
  {
    var m := Renamed();
    var rows := Relation(m, Minute);
    assert rows == [Bucket(0, "q", "x", Some(1.0)), Bucket(60_000, "p", "x", Some(2.0))];
    assert rows[1..] == [rows[1]] && rows[1..][1..] == [];
    assert "q"[0] != "p"[0];
    NoneOf(id);
    var mine := if id == "q" then rows[0] else rows[1];
    assert OfId(rows[1..], id) == if id == "q" then [] else [rows[1]];
    assert OfId(rows, id) == [mine] && First([mine]) == at && Last([mine]) == at;
    hide OfId, First, Last;
    assert TIERS[1..] == [Hourly, Daily] && TIERS[1..][1..] == [Daily] && TIERS[1..][1..][1..] == [];
    assert TierWindows(m, id, []) == [] && TierWindows(m, id, [Daily]) == [];
    assert TierWindows(m, id, [Hourly, Daily]) == [];
  }

  lemma RenamedAnswers(id: string, at: int)
    requires (id == "q" && at == 0) || (id == "p" && at == 60_000)
    ensures PlanAnswers(Renamed(), id, Minute, at)
  {
    RenamedWindow(id, at);
    hide TierWindows;
    var w := Window(Minute, at, at + 60_000);
    assert [w][1..] == [] && forall tier: Tier :: WindowOf([], tier) == None;
    assert forall tier: Tier :: WindowOf([w], tier) == if tier == Minute then Some(w) else None;
  }

  function OlderRow(): RawRow { RawRow(0, 1.0, Some(60_000), 1, "x") }

  function NewerRow(): RawRow { RawRow(60_000, 2.0, Some(60_000), 1, "x") }

  lemma RenamedWrites()
    ensures BucketWrites(Renamed(), Renamed().ids[0], Minute, 0, OlderRow())
    ensures BucketWrites(Renamed(), Renamed().ids[1], Minute, 1, NewerRow())
  {
    RenamedAnswers("q", 0);
    RenamedAnswers("p", 60_000);
    hide PlanAnswers;
  }

  lemma RenamedLegacy()
    ensures forall p :: p in Legacy(Renamed()) ==> p == Point("x", 60_000, 2.0)
    ensures MinutesAreUnique(Renamed())
  {
    hide LegacyPoints;
    var m := Renamed();
    assert "q"[0] != "p"[0];
    forall p | p in Legacy(m) ensures p == Point("x", 60_000, 2.0) {
      LegacyAre(Relation(m, Minute), m, "p", 120_000, p);
    }
  }

  lemma RenamedLosesNothing()
    ensures NothingLost(Untouched(), Renamed())
  {
    hide LegacyPoints, BucketWrites;
    var db, m := Untouched(), Renamed();
    RenamedLegacy();
    RenamedWrites();
    assert Foreseen(db, m, NewerRow());
    assert MinuteOf(60_000) == 60_000;
    assert ForeseenPoint(db, m, 120_000, Point("x", 60_000, 2.0));
  }

  /** Every bucket of both ids is replayed, and the migration is refused: the comparison knows one id. */
  lemma RenamedIsRefused()
    ensures var db, m := Untouched(), Renamed();
            var kills := [|Program(db, m, "p")|];
            && Finished(db, m, kills) && NothingLost(db, m) && NoConfigYet(db, m)
            && BucketWrites(m, "q", Minute, 0, OlderRow()) && BucketWrites(m, "p", Minute, 1, NewerRow())
            && !IsVerified(db, m, kills)
  {
    hide Program, Finished, IsVerified, BucketWrites, LegacyPoints, NothingLost, Legacy, MinutesAreUnique;
    var db, m := Untouched(), Renamed();
    UntouchedIsUnseen(m);
    OneRunFinishes(db, m);
    RenamedWrites();
    RenamedLegacy();
    RenamedLosesNothing();
    assert MinuteOf(0) == 0;
    OtherIdsAreRefused(db, m, [|Program(db, m, "p")|], 0, Minute, 0, OlderRow());
  }

  // ----- source ids that overlap ---------------------------------------------------------------------

  const NINE := 32_400_000
  const TEN := 36_000_000
  const ELEVEN := 39_600_000
  const TWELVE := 43_200_000

  /** A profile renamed and renamed back: one id at nine and eleven, the other at ten. */
  function RenamedBack(): Migration {
    Migration(Some("q"), None, None, 1, {"s"}, None, DAY_MS, [], map[Hourly := Hours()], ["q", "p"])
  }

  function Hours(): seq<Bucket> {
    [Bucket(NINE, "q", "s", Some(1.0)), Bucket(TEN, "p", "s", Some(2.0)), Bucket(ELEVEN, "q", "s", Some(1.0))]
  }

  lemma HoursOfEach()
    ensures OfId(Hours(), "q") == [Hours()[0], Hours()[2]] && OfId(Hours(), "p") == [Hours()[1]]
  {
    var a, b, c := Hours()[0], Hours()[1], Hours()[2];
    assert Hours() == [a, b, c] && [a, b, c][1..] == [b, c] && [b, c][1..] == [c] && [c][1..] == [];
    assert forall id: string :: OfId([], id) == [];
    assert "q"[0] != "p"[0] && c.id != "p" && a.id != "p";
    assert OfId([c], "q") == [c];
    assert OfId([c], "p") == OfId([c][1..], "p");
    assert OfId([b, c], "q") == [c] && OfId([b, c], "p") == [b];
  }

  lemma HourlyWindow(id: string, rows: seq<Bucket>)
    requires OfId(Hours(), id) == rows && rows != []
    ensures TierWindows(RenamedBack(), id, TIERS) == [Window(Hourly, First(rows), Last(rows) + 3_600_000)]
  {
    hide OfId, First, Last;
    var m := RenamedBack();
    assert Relation(m, Hourly) == Hours() && Relation(m, Minute) == [] && Relation(m, Daily) == [];
    assert OfId([], id) == [] by { NoneOf(id); }
    assert TIERS[1..] == [Hourly, Daily] && TIERS[1..][1..] == [Daily] && TIERS[1..][1..][1..] == [];
    assert TierWindows(m, id, []) == [] && TierWindows(m, id, [Daily]) == [];
    assert TierWindows(m, id, [Hourly, Daily]) == [Window(Hourly, First(rows), Last(rows) + 3_600_000)];
  }

  lemma NoneOf(id: string)
    ensures OfId([], id) == []
  {
  }

  lemma OneDayOnePiece(w: Window)
    requires w.tier == Hourly && 0 <= w.from < w.to <= DAY_MS
    ensures ReplayPieces([w], w.from, w.from, w.to) == [Answered(Hourly, Span(w.from, w.to))]
  {
    assert [w][1..] == [] && forall x: Tier :: WindowOf([], x) == None;
    assert forall x: Tier :: WindowOf([w], x) == if x == Hourly then Some(w) else None;
    hide WindowOf;
    assert DayEnd(w.from) == DAY_MS;
    var span := Span(w.from, w.to);
    assert UsableAtEdge([w], Hourly, span, true, true) && !UsableAtEdge([w], Minute, span, true, true);
    assert EdgeTier([w], span, true, true) == Some(Hourly) && ClipToTier([w], Hourly, span) == span;
    assert PlanOneChunk([w], span, true, true) == (Some(Chunk(Hourly, span)), [] + []);
    assert DayPieces([w], span, true, true) == Framed(Chunk(Hourly, span), span);
    assert ReplayPieces([w], w.from, DAY_MS, w.to) == [];
  }

  lemma OneChunkEach(id: string, rows: seq<Bucket>, from: int, end: int)
    requires OfId(Hours(), id) == rows && rows != [] && First(rows) == from && Last(rows) + 3_600_000 == end
    requires 0 <= from < end <= DAY_MS
    ensures IdChunks(RenamedBack(), id) == [Chunk(Hourly, Span(from, end))]
  {
    HourlyWindow(id, rows);
    OneDayOnePiece(Window(Hourly, from, end));
    hide OfId, First, Last, TierWindows, ReplayPieces;
    assert FirstFrom([Window(Hourly, from, end)]) == from && LastTo([Window(Hourly, from, end)]) == end;
    var piece := Answered(Hourly, Span(from, end));
    assert IdPieces(RenamedBack(), id) == [piece];
    assert [piece][1..] == [] && ChunksOf([]) == [];
  }

  function NineAndEleven(): Unit { Unit(BUCKET_REPLAY_SOURCE, "q", Hours(), Some(3_600_000), Span(NINE, TWELVE)) }

  function TenOClock(): Unit {
    Unit(BUCKET_REPLAY_SOURCE + "#p", "p", Hours(), Some(3_600_000), Span(TEN, ELEVEN))
  }

  lemma RenamedBackChunks()
    ensures IdChunks(RenamedBack(), "q") == [Chunk(Hourly, Span(NINE, TWELVE))]
    ensures IdChunks(RenamedBack(), "p") == [Chunk(Hourly, Span(TEN, ELEVEN))]
  {
    HoursOfEach();
    TwoOfId(Hours()[0], Hours()[2], "q");
    hide OfId, IdChunks;
    OneChunkEach("q", [Hours()[0], Hours()[2]], NINE, TWELVE);
    OneChunkEach("p", [Hours()[1]], TEN, ELEVEN);
  }

  lemma RenamedBackUnits()
    ensures RowUnits(RenamedBack(), "q") == [NineAndEleven(), TenOClock()]
  {
    var m := RenamedBack();
    RenamedBackChunks();
    hide IdChunks, Hours;
    assert Relation(m, Hourly) == Hours();
    assert "q"[0] != "p"[0];
    assert BUCKET_REPLAY_SOURCE + "#" + "p" == BUCKET_REPLAY_SOURCE + "#p";
    assert ["q", "p"][1..] == ["p"] && ["p"][1..] == [];
    assert ReplayUnits(m, [], "q") == [];
    assert ReplayUnits(m, ["p"], "q") == [TenOClock()];
    assert ReplayUnits(m, ["q", "p"], "q") == [NineAndEleven()] + [TenOClock()];
  }

  function At(t: int, value: real): LogRow { LogRow(t, value, 1, "s") }

  lemma HoursPolled()
    ensures ConfigPolls(Hours(), NineAndEleven(), RenamedBack()) == [At(NINE, 1.0), At(ELEVEN, 1.0)]
    ensures ConfigPolls(Hours(), TenOClock(), RenamedBack()) == [At(TEN, 2.0)]
  {
    var a, b, c, m := Hours()[0], Hours()[1], Hours()[2], RenamedBack();
    assert Hours() == [a, b, c] && [a, b, c][..2] == [a, b] && [a, b][..1] == [a] && [a][..0] == [];
    assert forall u: Unit :: ConfigPolls([], u, m) == [];
    assert ConfigPolls([a], NineAndEleven(), m) == [At(NINE, 1.0)] && ConfigPolls([a], TenOClock(), m) == [];
    assert ConfigPolls([a, b], NineAndEleven(), m) == [At(NINE, 1.0)];
    assert ConfigPolls([a, b], TenOClock(), m) == [At(TEN, 2.0)];
  }

  lemma RenamedBackLogs()
    ensures LogAfter([], [NineAndEleven(), TenOClock()], RenamedBack()) == [At(NINE, 1.0), At(TEN, 2.0)]
    ensures AllPolls([NineAndEleven(), TenOClock()], RenamedBack()) == [At(NINE, 1.0), At(ELEVEN, 1.0), At(TEN, 2.0)]
  {
    hide ConfigPolls, Changes, Prior;
    var m, u, v := RenamedBack(), NineAndEleven(), TenOClock();
    var nine, ten, eleven := At(NINE, 1.0), At(TEN, 2.0), At(ELEVEN, 1.0);
    HoursPolled();
    assert [u, v][1..] == [v] && [v][1..] == [];
    NoPrior(1, "s");
    OnePoll([], nine, NINE);
    TwoPolls([], nine, eleven, NINE);
    PriorSnoc([], nine, 1, "s", TEN);
    assert [] + [nine] == [nine];
    OnePoll([nine], ten, TEN);
    assert [] + Changes([], [nine, eleven], NINE) == [nine];
    assert LogAfter([], [u, v], m) == LogAfter([nine], [v], m);
    assert LogAfter([nine], [], m) == [nine] && LogAfter([nine, ten], [], m) == [nine, ten];
    assert [nine] + [ten] == [nine, ten];
    assert LogAfter([nine], [v], m) == [nine, ten];
    assert AllPolls([v], m) == [ten];
  }

  lemma NoPrior(device: int, metric: string)
    ensures forall t :: Prior([], device, metric, t) == None
  {
  }

  lemma RenamedBackReads()
    ensures LoggedAt([At(NINE, 1.0), At(TEN, 2.0)], 1, "s", ELEVEN) == Some(2.0)
    ensures LoggedAt([At(NINE, 1.0), At(ELEVEN, 1.0), At(TEN, 2.0)], 1, "s", ELEVEN) == Some(1.0)
  {
    hide Prior;
    var nine, ten, eleven := At(NINE, 1.0), At(TEN, 2.0), At(ELEVEN, 1.0);
    NoPrior(1, "s");
    PriorSnoc([], nine, 1, "s", ELEVEN + 1);
    PriorSnoc([nine], ten, 1, "s", ELEVEN + 1);
    PriorSnoc([nine], eleven, 1, "s", ELEVEN + 1);
    PriorSnoc([nine, eleven], ten, 1, "s", ELEVEN + 1);
    assert [] + [nine] == [nine] && [nine] + [ten] == [nine, ten] && [nine] + [eleven] == [nine, eleven];
    assert [nine, eleven] + [ten] == [nine, eleven, ten];
  }

  /**
   * The second poll of the first id repeats its own first and is not logged, and the
   * other id, committed after it, logs a change between them: from eleven on the log
   * of the finished run keeps a value that was no longer polled.
   */
  lemma RenamedBackMisreports()
    ensures var db, m := Untouched(), RenamedBack();
            && Active(db, m) && Unseen(db, m) && Distinct(m.ids) && InOrder(m)
            && LoggedAt(CleanRun(db, m).log, m.device, "s", ELEVEN) == Some(2.0)
            && LoggedAt(db.log + RunPolls(m), m.device, "s", ELEVEN) == Some(1.0)
            && !Committable(RunExtents(m))
  {
    var db, m := Untouched(), RenamedBack();
    hide CleanRun, Program, RowUnits, LogAfter, AllPolls, LoggedAt, Committable, Unseen, Extents;
    UntouchedIsUnseen(m);
    CleanRunWrites(db, m);
    RenamedBackUnits();
    RenamedBackLogs();
    RenamedBackReads();
    assert [] + RunPolls(m) == RunPolls(m);
    BackfillIsCrashEquivalent(db, m, []);
    var n := |Program(db, m, "q")|;
    assert Attempts(db, m, [] + [n]) == CleanRun(db, m);
    BackfillIsCrashEquivalent(db, m, [] + [n]);
    if Committable(RunExtents(m)) { ConfigHistoryIsKept(db, m, [] + [n], TWELVE, "s", ELEVEN); }
  }
}
