/**
 * What a backfill reads and where it puts it: the rows that a finished run holds and the
 * settings that it has polled, both in terms of what the migration starts with.
 */
module BackfillContents {
  import opened Wrappers
  import opened Database
  import opened Spans
  import opened Replay
  import opened Backfill
  import opened BackfillSafety
  import opened BackfillGuarantees
  import opened BackfillConfig

  // ----- what the commits write --------------------------------------------------------

  predicate WrittenFrom(row: RawRow, rows: seq<Bucket>, u: Unit, m: Migration) {
    exists i :: 0 <= i < |rows| && Reads(u, rows[i]) && rows[i].metric !in m.config
        && row == RawOf(rows[i], u.durMs, m.device)
  }

  lemma {:induction false} SeriesComeFrom(rows: seq<Bucket>, u: Unit, m: Migration)
    ensures forall row :: row in SeriesRows(rows, u, m) ==> WrittenFrom(row, rows, u, m)
  {
    if rows != [] {
      var before := rows[..|rows| - 1];
      SeriesComeFrom(before, u, m);
      forall row | row in SeriesRows(rows, u, m) ensures WrittenFrom(row, rows, u, m) {
        if row in SeriesRows(before, u, m) {
          var i :| 0 <= i < |before| && Reads(u, before[i]) && before[i].metric !in m.config
              && row == RawOf(before[i], u.durMs, m.device);
          assert rows[i] == before[i];
        } else {
          assert rows[|rows| - 1] == rows[|rows| - 1];
        }
      }
    }
  }

  lemma {:induction false} RowsComeFrom(us: seq<Unit>, m: Migration)
    ensures forall row :: row in AllRows(us, m) ==> exists i :: 0 <= i < |us| && WrittenFrom(row, us[i].rows, us[i], m)
  {
    if us != [] {
      SeriesComeFrom(us[0].rows, us[0], m);
      RowsComeFrom(us[1..], m);
      forall row | row in AllRows(us, m) ensures exists i :: 0 <= i < |us| && WrittenFrom(row, us[i].rows, us[i], m) {
        if row in AllRows(us[1..], m) {
          var i :| 0 <= i < |us[1..]| && WrittenFrom(row, us[1..][i].rows, us[1..][i], m);
          assert us[i + 1] == us[1..][i];
        } else {
          assert WrittenFrom(row, us[0].rows, us[0], m);
        }
      }
    }
  }

  lemma {:induction false} SeriesHold(rows: seq<Bucket>, u: Unit, m: Migration, i: nat)
    requires i < |rows| && Reads(u, rows[i]) && rows[i].metric !in m.config
    ensures RawOf(rows[i], u.durMs, m.device) in SeriesRows(rows, u, m)
  {
    if i < |rows| - 1 { SeriesHold(rows[..|rows| - 1], u, m, i); }
  }

  lemma {:induction false} RowsHold(us: seq<Unit>, m: Migration, k: nat, row: RawRow)
    requires k < |us| && row in SeriesRows(us[k].rows, us[k], m)
    ensures row in AllRows(us, m)
  {
    if k > 0 { RowsHold(us[1..], m, k - 1, row); }
  }

  // ----- what a run will write -----------------------------------------------------------

  lemma {:induction false} InOwnSpan(rows: seq<Bucket>, id: string, i: nat)
    requires i < |rows| && rows[i].id == id
    ensures OfId(rows, id) != [] && First(OfId(rows, id)) <= rows[i].time <= Last(OfId(rows, id))
  {
    if i > 0 {
      InOwnSpan(rows[1..], id, i - 1);
      if rows[0].id == id { assert OfId(rows, id)[1..] == OfId(rows[1..], id); }
    } else if OfId(rows[1..], id) != [] {
      assert OfId(rows, id)[1..] == OfId(rows[1..], id);
    }
  }

  /** A retained sample of the id that the carry turns into a row. */
  predicate CarriedSample(b: Bucket, m: Migration, id: string) {
    m.rawFrom.Some? && b.id == id && b.value.Some? && b.metric !in m.config
  }

  lemma {:induction false} ChunkHolding(chunks: seq<Chunk>, tier: Tier, t: int) returns (k: nat)
    requires TierHits(chunks, tier, t) > 0
    ensures k < |chunks| && chunks[k].tier == tier && chunks[k].span.Holds(t)
  {
    if chunks[0].tier == tier && chunks[0].span.Holds(t) { return 0; }
    k := ChunkHolding(chunks[1..], tier, t);
    k := k + 1;
  }

  lemma {:induction false} HeldIsHitBy(chunks: seq<Chunk>, k: nat, t: int)
    requires k < |chunks| && chunks[k].span.Holds(t)
    ensures TierHits(chunks, chunks[k].tier, t) > 0
  {
    if k > 0 { HeldIsHitBy(chunks[1..], k - 1, t); }
  }

  /** A lone tier answers every instant of its own window. */
  lemma OneTierAnswers(w: Window, t: int)
    requires w.tier == Minute && w.from <= t < w.to
    ensures TierHits(ChunksOf(ReplayPieces([w], w.from, w.from, w.to)), Minute, t) == 1
  {
    hide ReplayPieces, ChunksOf;
    assert WindowOf([w], Minute) == Some(w);
    ReplayAnswersExactly([w], w.from, w.from, w.to, Minute, t);
  }

  /** The carry plans every instant from its first sample to its last. */
  lemma CarryHolds(m: Migration, id: string, i: nat) returns (k: nat)
    requires i < |m.legacyRaw| && CarriedSample(m.legacyRaw[i], m, id)
    ensures k < |CarryPart(m, id)| && CarryPart(m, id)[k].span.Holds(m.legacyRaw[i].time)
  {
    InOwnSpan(m.legacyRaw, id, i);
    CarryHits(m, id, m.legacyRaw[i].time);
    hide CarryPieces, OfId;
    k := ChunkHolding(ChunksOf(CarryPieces(m, id)), Minute, m.legacyRaw[i].time);
  }

  lemma CarryHits(m: Migration, id: string, t: int)
    requires var mine := OfId(m.legacyRaw, id); mine != [] && First(mine) <= t <= Last(mine)
    ensures TierHits(ChunksOf(CarryPieces(m, id)), Minute, t) == 1
  {
    hide OfId, First, Last, ReplayPieces, ChunksOf;
    var mine := OfId(m.legacyRaw, id);
    OneTierAnswers(Window(Minute, First(mine), Last(mine) + BucketWidthMs(Minute)), t);
  }

  predicate CarryWrites(m: Migration, id: string, row: RawRow) {
    exists i :: 0 <= i < |m.legacyRaw| && CarriedSample(m.legacyRaw[i], m, id)
                && row == RawRow(m.legacyRaw[i].time, m.legacyRaw[i].value.value, m.rawDurMs, m.device,
                                 m.legacyRaw[i].metric)
  }

  /** The carry writes each retained sample of the id, and nothing else. */
  lemma CarryWritesExactly(m: Migration, id: string, row: RawRow)
    ensures row in AllRows(CarryPart(m, id), m)
       <==> CarryWrites(m, id, row)
  {
    var us := CarryPart(m, id);
    CarryUnitsAre(m, id);
    RowsComeFrom(us, m);
    hide AllRows, CarryPart;
    if row in AllRows(us, m) {
      var k :| 0 <= k < |us| && WrittenFrom(row, us[k].rows, us[k], m);
      var j :| 0 <= j < |us[k].rows| && Reads(us[k], us[k].rows[j]) && us[k].rows[j].metric !in m.config
               && row == RawOf(us[k].rows[j], us[k].durMs, m.device);
      assert CarriedSample(m.legacyRaw[j], m, id);
    }
    if i :| 0 <= i < |m.legacyRaw| && CarriedSample(m.legacyRaw[i], m, id)
            && row == RawOf(m.legacyRaw[i], m.rawDurMs, m.device) {
      var k := CarryHolds(m, id, i);
      SeriesHold(m.legacyRaw, us[k], m, i);
      RowsHold(us, m, k, row);
    }
  }

  lemma CarryUnitsAre(m: Migration, id: string)
    ensures m.rawFrom.None? ==> CarryPart(m, id) == []
    ensures forall k :: 0 <= k < |CarryPart(m, id)| ==>
              var u := CarryPart(m, id)[k]; u.id == id && u.rows == m.legacyRaw && u.durMs == m.rawDurMs
  {
  }

  /** The plan of the id gives the instant to the tier, in terms of what its tiers hold. */
  predicate PlanAnswers(m: Migration, id: string, tier: Tier, t: int) {
    var ws := TierWindows(m, id, TIERS);
    ws != [] && FirstFrom(ws) <= t < PlanEnd(m, ws) && Answers(ws, tier, FirstFrom(ws), PlanEnd(m, ws), t)
  }

  function PlanEnd(m: Migration, ws: seq<Window>): int
    requires ws != []
  {
    if m.replayTo.Some? then Min(m.replayTo.value, LastTo(ws)) else LastTo(ws)
  }

  lemma PlanAnswersExactly(m: Migration, id: string, tier: Tier, t: int)
    requires tier != Raw
    ensures TierHits(IdChunks(m, id), tier, t) == if PlanAnswers(m, id, tier, t) then 1 else 0
  {
    hide TierWindows, ReplayPieces, FirstFrom, LastTo, Answers, ChunksOf;
    var ws := TierWindows(m, id, TIERS);
    if ws == [] {
      NoChunksAtAll();
    } else {
      WindowAnswers(ws, FirstFrom(ws), PlanEnd(m, ws), tier, t);
    }
  }

  lemma NoChunksAtAll()
    ensures ChunksOf([]) == []
  {
  }

  lemma WindowAnswers(ws: seq<Window>, from: int, end: int, tier: Tier, t: int)
    requires tier != Raw
    ensures TierHits(ChunksOf(ReplayPieces(ws, from, from, end)), tier, t)
         == if from <= t < end && Answers(ws, tier, from, end, t) then 1 else 0
  {
    hide Answers;
    if from <= t < end {
      ReplayAnswersExactly(ws, from, from, end, tier, t);
    } else if from <= end {
      ReplayTiles(ws, from, from, end);
      TilesHitOnce(SpansOf(ReplayPieces(ws, from, from, end)), from, end, t);
      TierHitsBounded(ReplayPieces(ws, from, from, end), tier, t);
    }
  }

  /** The bucket becomes `row`: it has a value, is not configuration, and its tier answers its instant. */
  predicate BucketWrites(m: Migration, id: string, tier: Tier, i: int, row: RawRow) {
    tier != Raw && 0 <= i < |Relation(m, tier)|
    && var b := Relation(m, tier)[i];
       && b.id == id && b.value.Some? && b.metric !in m.config && PlanAnswers(m, id, tier, b.time)
       && row == RawRow(b.time, b.value.value, Some(BucketWidthMs(tier)), m.device, b.metric)
  }

  /** The replay of one id writes a row for each of those buckets, and nothing else. */
  lemma IdWritesExactly(m: Migration, id: string, primary: string, row: RawRow)
    ensures row in AllRows(BucketUnits(m, id, primary, IdChunks(m, id)), m)
       <==> exists tier: Tier, i: int :: BucketWrites(m, id, tier, i, row)
  {
    hide AllRows, IdChunks, PlanAnswers, TierHits;
    var chunks, us := IdChunks(m, id), BucketUnits(m, id, primary, IdChunks(m, id));
    RowsComeFrom(us, m);
    if row in AllRows(us, m) {
      var k :| 0 <= k < |us| && WrittenFrom(row, us[k].rows, us[k], m);
      var i :| 0 <= i < |us[k].rows| && Reads(us[k], us[k].rows[i]) && us[k].rows[i].metric !in m.config
               && row == RawOf(us[k].rows[i], us[k].durMs, m.device);
      HeldIsHitBy(chunks, k, us[k].rows[i].time);
      PlanAnswersExactly(m, id, chunks[k].tier, us[k].rows[i].time);
      assert BucketWrites(m, id, chunks[k].tier, i, row);
    }
    if tier: Tier, i: int :| BucketWrites(m, id, tier, i, row) {
      PlanAnswersExactly(m, id, tier, Relation(m, tier)[i].time);
      var k := ChunkHolding(chunks, tier, Relation(m, tier)[i].time);
      SeriesHold(us[k].rows, us[k], m, i);
      RowsHold(us, m, k, row);
    }
  }

  /** Of all source ids together. */
  ghost predicate ReplayWrites(m: Migration, ids: seq<string>, row: RawRow) {
    exists k, tier: Tier, i: int :: 0 <= k < |ids| && BucketWrites(m, ids[k], tier, i, row)
  }

  lemma {:induction false} ReplayWritesExactly(m: Migration, ids: seq<string>, primary: string, row: RawRow)
    ensures row in AllRows(ReplayUnits(m, ids, primary), m) <==> ReplayWrites(m, ids, row)
  {
    hide AllRows, IdChunks, BucketWrites;
    if ids == [] {
      NoUnitsNoRows(m);
    } else {
      IdWritesExactly(m, ids[0], primary, row);
      ReplayWritesExactly(m, ids[1..], primary, row);
      RunsConcat([], BucketUnits(m, ids[0], primary, IdChunks(m, ids[0])), ReplayUnits(m, ids[1..], primary), m);
      assert forall k :: 0 <= k < |ids[1..]| ==> ids[1..][k] == ids[k + 1];
      if k, tier: Tier, i: int :| 0 <= k < |ids| && BucketWrites(m, ids[k], tier, i, row) {
        if k > 0 { assert BucketWrites(m, ids[1..][k - 1], tier, i, row); }
      }
      if k, tier: Tier, i: int :| 0 <= k < |ids[1..]| && BucketWrites(m, ids[1..][k], tier, i, row) {
        assert BucketWrites(m, ids[k + 1], tier, i, row);
      }
    }
  }

  lemma NoUnitsNoRows(m: Migration)
    ensures AllRows([], m) == []
  {
  }

  /** A row that `metrics_raw` will hold: there already, a retained sample, or a bucket of some id. */
  ghost predicate Foreseen(db: Db, m: Migration, row: RawRow)
    requires m.sourceId.Some?
  {
    row in db.raw || CarryWrites(m, m.sourceId.value, row)
    || ReplayWrites(m, SourceOrder(m, m.sourceId.value), row)
  }

  /** A finished backfill holds exactly the rows that can be foreseen from what it starts with. */
  lemma BackfillHoldsForeseen(db: Db, m: Migration, row: RawRow)
    requires Active(db, m) && Unseen(db, m) && Distinct(m.ids)
    ensures row in CleanRun(db, m).raw <==> Foreseen(db, m, row)
  {
    hide AllRows, CarryPart, ReplayUnits, CleanRun, Unseen, BucketWrites;
    var primary := m.sourceId.value;
    CleanRunWrites(db, m);
    RunsConcat(db.log, CarryPart(m, primary), ReplayPart(m, primary), m);
    CarryWritesExactly(m, primary, row);
    ReplayWritesExactly(m, SourceOrder(m, primary), primary, row);
  }

  // ----- where a value goes ----------------------------------------------------------------

  /** The same migration, if nothing were configuration. */
  function Everything(m: Migration): Migration { m.(config := {}) }

  function SeriesOf(rows: seq<RawRow>, config: set<string>): seq<RawRow> {
    if rows == [] then []
    else
      var before, row := SeriesOf(rows[..|rows| - 1], config), rows[|rows| - 1];
      if row.metric in config then before else before + [row]
  }

  function SettingsOf(rows: seq<RawRow>, config: set<string>): seq<LogRow> {
    if rows == [] then []
    else
      var before, row := SettingsOf(rows[..|rows| - 1], config), rows[|rows| - 1];
      if row.metric in config then before + [LogRow(row.time, row.value, row.device, row.metric)] else before
  }

  /** A chunk splits what it reads: each value is a row or a poll, as its metric is configuration, in time order. */
  lemma {:induction false} ChunkIsSplit(rows: seq<Bucket>, u: Unit, m: Migration)
    ensures SeriesRows(rows, u, m) == SeriesOf(SeriesRows(rows, u, Everything(m)), m.config)
    ensures ConfigPolls(rows, u, m) == SettingsOf(SeriesRows(rows, u, Everything(m)), m.config)
  {
    if rows != [] {
      var before, b := rows[..|rows| - 1], rows[|rows| - 1];
      ChunkIsSplit(before, u, m);
      if Reads(u, b) {
        var all := SeriesRows(rows, u, Everything(m));
        assert all[..|all| - 1] == SeriesRows(before, u, Everything(m));
      }
    }
  }

  lemma {:induction false} SplitConcat(x: seq<RawRow>, y: seq<RawRow>, config: set<string>)
    ensures SeriesOf(x + y, config) == SeriesOf(x, config) + SeriesOf(y, config)
    ensures SettingsOf(x + y, config) == SettingsOf(x, config) + SettingsOf(y, config)
  {
    if y == [] {
      assert x + y == x;
    } else {
      assert (x + y)[..|x + y| - 1] == x + y[..|y| - 1];
      SplitConcat(x, y[..|y| - 1], config);
    }
  }

  /** So does a whole run: nothing that it reads is dropped, and nothing is both. */
  lemma {:induction false} RunIsSplit(us: seq<Unit>, m: Migration)
    ensures AllRows(us, m) == SeriesOf(AllRows(us, Everything(m)), m.config)
    ensures AllPolls(us, m) == SettingsOf(AllRows(us, Everything(m)), m.config)
  {
    if us != [] {
      hide SeriesRows, ConfigPolls;
      ChunkIsSplit(us[0].rows, us[0], m);
      RunIsSplit(us[1..], m);
      SplitConcat(SeriesRows(us[0].rows, us[0], Everything(m)), AllRows(us[1..], Everything(m)), m.config);
    }
  }

  lemma {:induction false} SettingsAre(rows: seq<RawRow>, config: set<string>, p: LogRow)
    ensures p in SettingsOf(rows, config) <==> exists row :: row in rows && IsSetting(row, config, p)
  {
    if rows != [] {
      var before, last := rows[..|rows| - 1], rows[|rows| - 1];
      SettingsAre(before, config, p);
      assert rows == before + [last];
      assert SettingsOf(rows, config)
          == SettingsOf(before, config)
             + if last.metric in config then [LogRow(last.time, last.value, last.device, last.metric)] else [];
      if row :| row in before && IsSetting(row, config, p) { assert row in rows; }
      if IsSetting(last, config, p) { assert last in rows; }
    }
  }

  predicate IsSetting(row: RawRow, config: set<string>, p: LogRow) {
    row.metric in config && p.metric == row.metric && p.time == row.time && p.value == row.value
        && p.device == row.device
  }

  // ----- the plan does not depend on what is configuration ------------------------------------

  lemma {:induction false} SameWindows(m: Migration, id: string, tiers: seq<Tier>)
    requires Raw !in tiers
    ensures TierWindows(Everything(m), id, tiers) == TierWindows(m, id, tiers)
  {
    if tiers != [] { SameWindows(m, id, tiers[1..]); }
  }

  lemma {:induction false} SameBuckets(m: Migration, id: string, primary: string, chunks: seq<Chunk>)
    requires forall i :: 0 <= i < |chunks| ==> chunks[i].tier != Raw
    ensures BucketUnits(Everything(m), id, primary, chunks) == BucketUnits(m, id, primary, chunks)
  {
    assert forall tier: Tier :: Relation(Everything(m), tier) == Relation(m, tier);
  }

  lemma {:induction false} SameReplay(m: Migration, ids: seq<string>, primary: string)
    ensures ReplayUnits(Everything(m), ids, primary) == ReplayUnits(m, ids, primary)
  {
    if ids != [] {
      SameWindows(m, ids[0], TIERS);
      assert IdPieces(Everything(m), ids[0]) == IdPieces(m, ids[0]);
      hide IdPieces;
      assert IdChunks(Everything(m), ids[0]) == IdChunks(m, ids[0]);
      hide IdChunks;
      SameBuckets(m, ids[0], primary, IdChunks(m, ids[0]));
      SameReplay(m, ids[1..], primary);
    }
  }

  lemma SameCarry(m: Migration, primary: string)
    ensures CarryPart(Everything(m), primary) == CarryPart(m, primary)
  {
    assert CarryPieces(Everything(m), primary) == CarryPieces(m, primary);
    hide CarryPieces, ChunksOf;
    assert |CarryPart(Everything(m), primary)| == |CarryPart(m, primary)|;
  }

  /**
   * The settings that a run polls are exactly the values with a setting's metric among
   * all that it carries and replays.
   */
  lemma PollsAreForeseen(m: Migration, p: LogRow)
    requires m.sourceId.Some?
    ensures var id := m.sourceId.value;
            p in AllPolls(RowUnits(m, id), m)
            <==> exists row :: IsSetting(row, m.config, p)
                   && (CarryWrites(Everything(m), id, row) || ReplayWrites(Everything(m), SourceOrder(m, id), row))
  {
    hide AllRows, AllPolls, CarryPart, ReplayUnits, BucketWrites, SettingsOf, SeriesOf, IsSetting;
    var id, all := m.sourceId.value, Everything(m);
    var us := RowUnits(m, id);
    SameCarry(m, id);
    SameReplay(m, SourceOrder(m, id), id);
    RunIsSplit(us, m);
    SettingsAre(AllRows(us, all), m.config, p);
    RunsConcat([], CarryPart(all, id), ReplayPart(all, id), all);
    forall row ensures row in AllRows(us, all)
          <==> CarryWrites(all, id, row) || ReplayWrites(all, SourceOrder(m, id), row) {
      CarryWritesExactly(all, id, row);
      ReplayWritesExactly(all, SourceOrder(m, id), id, row);
    }
  }
}
