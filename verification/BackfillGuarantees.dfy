/** What a finished backfill has written, and in which order it got there. */
module BackfillGuarantees {
  import opened Wrappers
  import opened Database
  import opened Spans
  import opened Replay
  import RefreshWindows
  import opened Backfill
  import opened BackfillSafety

  // ----- the watermark namespaces ------------------------------------------------

  lemma CancelPrefix(base: string, x: string, y: string)
    requires base + "#" + x == base + "#" + y
    ensures x == y
  {
    var p := base + "#";
    assert x == (p + x)[|p|..] && y == (p + y)[|p|..];
  }

  /** Two source ids never share a watermark, whichever of them is the primary. */
  lemma WatermarksAreInjective(base: string, x: string, y: string, primary: string)
    ensures WatermarkSource(base, x, primary) == WatermarkSource(base, y, primary) <==> x == y
  {
    assert |base + "#" + x| > |base| && |base + "#" + y| > |base|;
    if WatermarkSource(base, x, primary) == WatermarkSource(base, y, primary) && x != primary && y != primary {
      CancelPrefix(base, x, y);
    }
  }

  lemma NamespacesAreApart(id: string, primary: string, tier: Tier)
    ensures var source := WatermarkSource(BUCKET_REPLAY_SOURCE, id, primary);
            source != RAW_CARRY_SOURCE && source != REFRESH_SOURCE + "-" + TierName(tier)
    ensures RAW_CARRY_SOURCE != REFRESH_SOURCE + "-" + TierName(tier)
  {
    var source := WatermarkSource(BUCKET_REPLAY_SOURCE, id, primary);
    assert source[13] == 'b';
    assert RAW_CARRY_SOURCE[13] == 'r' && RAW_CARRY_SOURCE[14] == 'a';
    assert (REFRESH_SOURCE + "-" + TierName(tier))[13] == 'r' && (REFRESH_SOURCE + "-" + TierName(tier))[14] == 'e';
  }

  // ----- distinct watermarks within a program --------------------------------------

  predicate DistinctKeys(us: seq<Unit>, m: Migration) {
    forall i, j :: 0 <= i < j < |us| ==> KeyOf(us[i], m) != KeyOf(us[j], m)
  }

  lemma PiecesAscend(ws: seq<Window>, from: int, end: int)
    ensures var chunks := ChunksOf(ReplayPieces(ws, from, from, end));
            && ChunksAscend(chunks) && ChunksForward(chunks)
            && forall i :: 0 <= i < |chunks| ==> from <= chunks[i].span.start && chunks[i].span.end <= end
  {
    if from <= end {
      ReplayTiles(ws, from, from, end);
      TilesAscend(ReplayPieces(ws, from, from, end), from, end);
    }
  }

  /** The chunks of one source id ascend in time and do not overlap. */
  lemma IdChunksAscend(m: Migration, id: string)
    ensures ChunksAscend(IdChunks(m, id)) && ChunksForward(IdChunks(m, id))
  {
    var ws := TierWindows(m, id, TIERS);
    if ws != [] {
      PiecesAscend(ws, FirstFrom(ws), if m.replayTo.Some? then Min(m.replayTo.value, LastTo(ws)) else LastTo(ws));
    }
  }

  lemma IdKeysDistinct(m: Migration, id: string, primary: string)
    ensures DistinctKeys(BucketUnits(m, id, primary, IdChunks(m, id)), m)
  {
    IdChunksAscend(m, id);
    hide IdChunks;
  }

  lemma CarryKeysDistinct(m: Migration, primary: string)
    ensures DistinctKeys(CarryPart(m, primary), m)
  {
    var mine := OfId(m.legacyRaw, primary);
    if mine != [] {
      var w := Window(Minute, First(mine), Last(mine) + BucketWidthMs(Minute));
      PiecesAscend([w], w.from, w.to);
    }
    hide OfId, First, Last, ReplayPieces;
  }

  predicate FromOneOf(source: string, ids: seq<string>, primary: string) {
    exists i :: 0 <= i < |ids| && source == WatermarkSource(BUCKET_REPLAY_SOURCE, ids[i], primary)
  }

  lemma {:induction false} UnitSources(m: Migration, ids: seq<string>, primary: string)
    ensures forall u :: u in ReplayUnits(m, ids, primary) ==> FromOneOf(u.source, ids, primary)
  {
    if ids != [] {
      UnitSources(m, ids[1..], primary);
      forall u | u in ReplayUnits(m, ids, primary) ensures FromOneOf(u.source, ids, primary) {
        if u in ReplayUnits(m, ids[1..], primary) {
          var i :| 0 <= i < |ids[1..]| && u.source == WatermarkSource(BUCKET_REPLAY_SOURCE, ids[1..][i], primary);
          assert ids[i + 1] == ids[1..][i];
        } else {
          assert u.source == WatermarkSource(BUCKET_REPLAY_SOURCE, ids[0], primary);
        }
      }
    }
  }

  lemma ReplayUnitsOfOne(m: Migration, id: string)
    requires SourceOrder(m, id) == [id]
    ensures ReplayPart(m, id) == BucketUnits(m, id, id, IdChunks(m, id))
  {
    hide IdChunks;
    assert [id][1..] == [];
    assert ReplayUnits(m, [], id) == [];
  }

  lemma {:induction false} ReplayKeysDistinct(m: Migration, ids: seq<string>, primary: string)
    requires Distinct(ids)
    ensures DistinctKeys(ReplayUnits(m, ids, primary), m)
  {
    if ids != [] {
      hide IdChunks;
      var mine, later := BucketUnits(m, ids[0], primary, IdChunks(m, ids[0])), ReplayUnits(m, ids[1..], primary);
      IdKeysDistinct(m, ids[0], primary);
      ReplayKeysDistinct(m, ids[1..], primary);
      UnitSources(m, ids[1..], primary);
      assert ids[0] !in ids[1..];
      forall i, j | 0 <= i < |mine| && 0 <= j < |later| ensures mine[i].source != later[j].source {
        assert later[j] in later;
        var k :| 0 <= k < |ids[1..]| && later[j].source == WatermarkSource(BUCKET_REPLAY_SOURCE, ids[1..][k], primary);
        WatermarksAreInjective(BUCKET_REPLAY_SOURCE, ids[0], ids[1..][k], primary);
      }
    }
  }

  function RowUnits(m: Migration, primary: string): seq<Unit> { CarryPart(m, primary) + ReplayPart(m, primary) }

  /**
   * Under which source each chunk is recorded: the carry under its own, the replay of
   * the recorded id under the bare one, every other id under that and its name, and
   * each chunk by the id it reads.
   */
  lemma {:induction false} WatermarksAre(m: Migration, ids: seq<string>, primary: string)
    ensures forall u :: u in CarryPart(m, primary) ==> u.source == "legacy-1.2.0-raw" && u.id == primary
    ensures forall u :: u in ReplayUnits(m, ids, primary) ==>
              u.id in ids
              && u.source == if u.id == primary then "legacy-1.2.0-buckets" else "legacy-1.2.0-buckets#" + u.id
  {
    if ids != [] {
      hide IdChunks;
      WatermarksAre(m, ids[1..], primary);
      var mine := BucketUnits(m, ids[0], primary, IdChunks(m, ids[0]));
      HashFirst(ids[0]);
      forall u | u in ReplayUnits(m, ids, primary)
        ensures u.id in ids
        ensures u.source == if u.id == primary then "legacy-1.2.0-buckets" else "legacy-1.2.0-buckets#" + u.id
      {
        if u !in ReplayUnits(m, ids[1..], primary) { assert u in mine; }
      }
    }
  }

  /** Under which source a refresh of each tier is recorded. */
  lemma RefreshesAre(window: Span, m: Migration)
    ensures RefreshKey(Minute, window, m) == Progress("legacy-1.2.0-refresh-minute_rollups", m.device, window.start)
    ensures RefreshKey(Hourly, window, m) == Progress("legacy-1.2.0-refresh-hourly_rollups", m.device, window.start)
    ensures RefreshKey(Daily, window, m) == Progress("legacy-1.2.0-refresh-daily_rollups", m.device, window.start)
  {
    assert REFRESH_SOURCE + "-" + TierName(Minute) == "legacy-1.2.0-refresh-minute_rollups";
    assert REFRESH_SOURCE + "-" + TierName(Hourly) == "legacy-1.2.0-refresh-hourly_rollups";
    assert REFRESH_SOURCE + "-" + TierName(Daily) == "legacy-1.2.0-refresh-daily_rollups";
  }

  lemma HashFirst(id: string)
    ensures BUCKET_REPLAY_SOURCE + "#" + id == "legacy-1.2.0-buckets#" + id
  {
    assert BUCKET_REPLAY_SOURCE + "#" == "legacy-1.2.0-buckets#";
  }

  lemma CarrySource(m: Migration, primary: string)
    ensures forall i :: 0 <= i < |CarryPart(m, primary)| ==> CarryPart(m, primary)[i].source == RAW_CARRY_SOURCE
  {
  }

  /** No two chunks of a backfill share a watermark. */
  lemma RowKeysDistinct(m: Migration, primary: string)
    requires Distinct(m.ids)
    ensures DistinctKeys(RowUnits(m, primary), m)
  {
    hide CarryPart, ReplayUnits;
    var carry, replay := CarryPart(m, primary), ReplayPart(m, primary);
    CarryKeysDistinct(m, primary);
    CarrySource(m, primary);
    ReplayKeysDistinct(m, SourceOrder(m, primary), primary);
    UnitSources(m, SourceOrder(m, primary), primary);
    forall i, j | 0 <= i < |carry| && 0 <= j < |replay| ensures carry[i].source != replay[j].source {
      assert replay[j] in replay;
      var k :| 0 <= k < |SourceOrder(m, primary)|
               && replay[j].source == WatermarkSource(BUCKET_REPLAY_SOURCE, SourceOrder(m, primary)[k], primary);
      NamespacesAreApart(SourceOrder(m, primary)[k], primary, Minute);
    }
  }

  // ----- the rows of a clean run ------------------------------------------------------

  function AllRows(us: seq<Unit>, m: Migration): seq<RawRow> {
    if us == [] then [] else SeriesRows(us[0].rows, us[0], m) + AllRows(us[1..], m)
  }

  /** The configuration log as the chunks are committed one after the other. */
  function LogAfter(log: seq<LogRow>, us: seq<Unit>, m: Migration): seq<LogRow>
    decreases |us|
  {
    if us == [] then log
    else LogAfter(log + Changes(log, ConfigPolls(us[0].rows, us[0], m), us[0].span.start), us[1..], m)
  }

  predicate NoneDone(db: Db, us: seq<Unit>, m: Migration) { forall i :: 0 <= i < |us| ==> KeyOf(us[i], m) !in db.done }

  lemma CommitStep(db: Db, us: seq<Unit>, m: Migration)
    requires us != [] && DistinctKeys(us, m) && NoneDone(db, us, m)
    ensures var next := Exec(db, Commit(us[0]), m);
            && ExecAll(db, Commits(us), m) == ExecAll(next, Commits(us[1..]), m)
            && next.raw == db.raw + SeriesRows(us[0].rows, us[0], m)
            && next.log == db.log + Changes(db.log, ConfigPolls(us[0].rows, us[0], m), us[0].span.start)
            && next.done == db.done + {KeyOf(us[0], m)}
            && DistinctKeys(us[1..], m) && NoneDone(next, us[1..], m)
  {
    assert Commits(us)[1..] == Commits(us[1..]);
    assert forall i :: 0 <= i < |us[1..]| ==> us[1..][i] == us[i + 1];
  }

  lemma {:induction false} CommitsRun(db: Db, us: seq<Unit>, m: Migration)
    requires DistinctKeys(us, m) && NoneDone(db, us, m)
    ensures var db' := ExecAll(db, Commits(us), m);
            db'.raw == db.raw + AllRows(us, m) && db'.log == LogAfter(db.log, us, m)
            && forall p :: p in db'.done ==> p in db.done || exists i :: 0 <= i < |us| && p == KeyOf(us[i], m)
    decreases |us|
  {
    if us != [] {
      hide Exec, ExecAll, SeriesRows, Changes, ConfigPolls, DistinctKeys, NoneDone, KeyOf;
      var next := Exec(db, Commit(us[0]), m);
      CommitStep(db, us, m);
      CommitsRun(next, us[1..], m);
      Regroup(db.raw, SeriesRows(us[0].rows, us[0], m), AllRows(us[1..], m));
      forall p | p in ExecAll(db, Commits(us), m).done && p !in db.done ensures exists i ::
            0 <= i < |us| && p == KeyOf(us[i], m) {
        if p != KeyOf(us[0], m) {
          var i :| 0 <= i < |us[1..]| && p == KeyOf(us[1..][i], m);
          assert us[i + 1] == us[1..][i];
        }
      }
    } else {
      assert db.raw + [] == db.raw;
    }
  }

  /** The migration has not been started on this database. */
  ghost predicate Unseen(db: Db, m: Migration) {
    m.sourceId.Some? && NoneDone(db, RowUnits(m, m.sourceId.value), m)
    && forall tier: Tier, window: Span :: RefreshKey(tier, window, m) !in db.done
  }

  lemma {:induction false} RunsConcat(log: seq<LogRow>, x: seq<Unit>, y: seq<Unit>, m: Migration)
    ensures AllRows(x + y, m) == AllRows(x, m) + AllRows(y, m)
    ensures LogAfter(log, x + y, m) == LogAfter(LogAfter(log, x, m), y, m)
    decreases |x|
  {
    if x == [] {
      assert x + y == y;
    } else {
      hide SeriesRows, Changes, ConfigPolls;
      assert (x + y)[1..] == x[1..] + y;
      RunsConcat(log + Changes(log, ConfigPolls(x[0].rows, x[0], m), x[0].span.start), x[1..], y, m);
      Regroup(SeriesRows(x[0].rows, x[0], m), AllRows(x[1..], m), AllRows(y, m));
    }
  }

  lemma StageStep(db: Db, m: Migration, stage: Stage)
    ensures ExecAll(db, [SetStage(stage)], m) == db.(stage := stage)
  {
    ExecOne(db, SetStage(stage), m);
  }

  lemma RowPartRuns(db: Db, m: Migration)
    requires Distinct(m.ids) && Unseen(db, m)
    ensures var us, db' := RowUnits(m, m.sourceId.value), ExecAll(db, RowPart(m, m.sourceId.value), m);
            db'.raw == db.raw + AllRows(us, m) && db'.log == LogAfter(db.log, us, m)
  {
    hide CarryPart, ReplayPart, ExecAll, Exec, AllRows, LogAfter, KeyOf, RefreshKey;
    var primary := m.sourceId.value;
    var carry, replay := CarryPart(m, primary), ReplayPart(m, primary);
    var us := carry + replay;
    RowKeysDistinct(m, primary);
    assert NoneDone(db, carry, m) by { assert forall i :: 0 <= i < |carry| ==> us[i] == carry[i]; }
    assert DistinctKeys(carry, m) by { assert forall i :: 0 <= i < |carry| ==> us[i] == carry[i]; }
    assert DistinctKeys(replay, m) by { assert forall i :: 0 <= i < |replay| ==> us[|carry| + i] == replay[i]; }
    CommitsRun(db, carry, m);
    var carried := ExecAll(db, Commits(carry), m);
    forall j | 0 <= j < |replay| ensures KeyOf(replay[j], m) !in carried.done {
      assert us[|carry| + j] == replay[j];
      assert forall i :: 0 <= i < |carry| ==> us[i] == carry[i];
    }
    var stage := if m.rawFrom.None? then [] else [SetStage(Carried)];
    StageStep(carried, m, Carried);
    assert m.rawFrom.None? ==> ExecAll(carried, [], m) == carried by { NothingRuns(carried, m); }
    var staged := ExecAll(carried, stage, m);
    CommitsRun(staged, replay, m);
    ExecConcat(db, Commits(carry), stage, m);
    ExecConcat(db, Commits(carry) + stage, Commits(replay), m);
    RunsConcat(db.log, carry, replay, m);
    Regroup(db.raw, AllRows(carry, m), AllRows(replay, m));
  }

  lemma NothingRuns(db: Db, m: Migration)
    ensures ExecAll(db, [], m) == db
  {
  }

  /** A clean run adds every chunk's rows once, and logs configuration chunk by chunk. */
  lemma CleanRunWrites(db: Db, m: Migration)
    requires Active(db, m) && Distinct(m.ids) && Unseen(db, m)
    ensures CleanRun(db, m).raw == db.raw + AllRows(RowUnits(m, m.sourceId.value), m)
    ensures CleanRun(db, m).log == LogAfter(db.log, RowUnits(m, m.sourceId.value), m)
  {
    hide RowPart, RefreshPart, ExecAll, RowUnits, Unseen;
    var all := Program(db, m, m.sourceId.value);
    RowPartRuns(db, m);
    RowsAreFinal(db, m, m.sourceId.value, |all|);
    assert all[..|all|] == all;
  }

  // ----- what the stage says on the way -----------------------------------------------

  lemma {:induction false} CommitsKeepStage(db: Db, sts: seq<Statement>, m: Migration)
    requires forall i :: 0 <= i < |sts| ==> sts[i].Commit?
    ensures ExecAll(db, sts, m).stage == db.stage
    decreases |sts|
  {
    if sts != [] {
      assert forall i :: 0 <= i < |sts[1..]| ==> sts[1..][i] == sts[i + 1];
      CommitsKeepStage(Exec(db, sts[0], m), sts[1..], m);
    }
  }

  lemma {:induction false} RowsStay(db: Db, sts: seq<Statement>, m: Migration)
    ensures db.raw <= ExecAll(db, sts, m).raw
    decreases |sts|
  {
    if sts != [] { RowsStay(Exec(db, sts[0], m), sts[1..], m); }
  }

  lemma {:induction false} OnlyTheirKeys(db: Db, sts: seq<Statement>, m: Migration)
    requires forall i :: 0 <= i < |sts| ==> sts[i].Commit? && sts[i].unit.source == "legacy-1.2.0-raw"
    ensures forall p :: p in ExecAll(db, sts, m).done ==> p in db.done || p.source == "legacy-1.2.0-raw"
    decreases |sts|
  {
    if sts != [] {
      assert forall i :: 0 <= i < |sts[1..]| ==> sts[1..][i] == sts[i + 1];
      OnlyTheirKeys(Exec(db, sts[0], m), sts[1..], m);
    }
  }

  lemma {:induction false} LaterStages(db: Db, sts: seq<Statement>, m: Migration)
    requires forall i :: 0 <= i < |sts| && sts[i].SetStage? ==> sts[i].stage == Backfilled
    ensures ExecAll(db, sts, m).stage in {db.stage, Backfilled}
    decreases |sts|
  {
    if sts != [] {
      assert forall i :: 0 <= i < |sts[1..]| ==> sts[1..][i] == sts[i + 1];
      LaterStages(Exec(db, sts[0], m), sts[1..], m);
    }
  }

  /** A program with a carry: its commits, the stage, and no other stage before the last. */
  lemma CarryThenTheRest(db: Db, m: Migration) returns (rest: seq<Statement>)
    requires Active(db, m) && m.rawFrom.Some?
    ensures var primary := m.sourceId.value;
            Program(db, m, primary) == Commits(CarryPart(m, primary)) + ([SetStage(Carried)] + rest)
    ensures forall i :: 0 <= i < |rest| && rest[i].SetStage? ==> rest[i].stage == Backfilled
  {
    hide CarryPart, ReplayPart, ExecAll, RefreshPart;
    var primary := m.sourceId.value;
    var raw := ExecAll(db, RowPart(m, primary), m).raw;
    var replays, refreshes := Commits(ReplayPart(m, primary)), RefreshPart(raw, m);
    rest := replays + (refreshes + [SetStage(Backfilled)]);
    RefreshPartRefreshes(raw, m);
    assert forall i :: 0 <= i < |refreshes| ==> refreshes[i] in refreshes;
    assert forall i :: 0 <= i < |replays| + |refreshes| ==>
        rest[i] == if i < |replays| then replays[i] else refreshes[i - |replays|];
  }

  /**
   * `carried` is said when the retained window is in and not before, and nothing is
   * recorded of the replay until it has been said.
   */
  lemma CarriedMeansCarried(db: Db, m: Migration, kills: seq<nat>)
    requires Active(db, m) && Unseen(db, m) && Distinct(m.ids) && m.rawFrom.Some? && db.stage != Carried
    ensures var end := Attempts(db, m, kills);
            && (end.stage == Carried ==> db.raw + AllRows(CarryPart(m, m.sourceId.value), m) <= end.raw)
            && ((exists p :: p in end.done && p !in db.done && p.source != "legacy-1.2.0-raw") ==>
                  end.stage in {Carried, Backfilled})
  {
    hide CarryPart, ReplayUnits, ExecAll, Exec, Attempts, Program, AllRows, Active;
    var primary := m.sourceId.value;
    var carry, all := Commits(CarryPart(m, primary)), Program(db, m, primary);
    var rest := CarryThenTheRest(db, m);
    var k := ReachableIsPrefix(db, m, kills);
    var end := ExecAll(db, all[..k], m);
    WatermarksAre(m, [], primary);
    if k <= |carry| {
      assert all[..k] == carry[..k];
      forall i | 0 <= i < k ensures carry[..k][i].Commit? && carry[..k][i].unit.source == "legacy-1.2.0-raw" {
        assert carry[i].unit in CarryPart(m, primary);
      }
      CommitsKeepStage(db, carry[..k], m);
      OnlyTheirKeys(db, carry[..k], m);
    } else {
      var later := rest[..k - |carry| - 1];
      assert all[..k] == carry + ([SetStage(Carried)] + later);
      var carried := ExecAll(db, carry, m);
      CarryRuns(db, m);
      ExecConcat(db, carry, [SetStage(Carried)] + later, m);
      ExecConcat(carried, [SetStage(Carried)], later, m);
      StageStep(carried, m, Carried);
      RowsStay(carried.(stage := Carried), later, m);
      LaterStages(carried.(stage := Carried), later, m);
    }
  }

  lemma CarryRuns(db: Db, m: Migration)
    requires Unseen(db, m) && Distinct(m.ids)
    ensures var us := CarryPart(m, m.sourceId.value); ExecAll(db, Commits(us), m).raw == db.raw + AllRows(us, m)
  {
    hide CarryPart, ReplayPart, ExecAll, Exec, AllRows, KeyOf, RefreshKey;
    var primary := m.sourceId.value;
    var carry, all := CarryPart(m, primary), RowUnits(m, primary);
    CarryKeysDistinct(m, primary);
    assert forall i :: 0 <= i < |carry| ==> all[i] == carry[i];
    CommitsRun(db, carry, m);
  }

  /** Without a retained window the stage never says that one was carried. */
  lemma NothingToCarry(db: Db, m: Migration, kills: seq<nat>)
    requires Active(db, m) && m.rawFrom.None? && db.stage != Carried
    ensures Attempts(db, m, kills).stage in {db.stage, Backfilled}
  {
    hide CarryPart, ReplayUnits, ExecAll, Exec, Attempts, RefreshPart;
    var primary := m.sourceId.value;
    var rows := RowPart(m, primary);
    var refreshes := RefreshPart(ExecAll(db, rows, m).raw, m);
    var all := Program(db, m, primary);
    var k := ReachableIsPrefix(db, m, kills);
    RefreshPartRefreshes(ExecAll(db, rows, m).raw, m);
    assert forall i :: 0 <= i < |refreshes| ==> refreshes[i] in refreshes;
    assert forall i :: 0 <= i < |rows| + |refreshes| ==>
        all[i] == if i < |rows| then rows[i] else refreshes[i - |rows|];
    LaterStages(db, all[..k], m);
  }

  // ----- refreshing -------------------------------------------------------------------

  /** The rows every attempt ends up with before it refreshes anything. */
  function FinalRaw(db: Db, m: Migration): seq<RawRow>
    requires Active(db, m)
  {
    ExecAll(db, RowPart(m, m.sourceId.value), m).raw
  }

  /** Nothing is refreshed for `tier` by statements that are not about it. */
  lemma {:induction false} NothingForTier(db: Db, sts: seq<Statement>, m: Migration, tier: Tier)
    requires forall i :: 0 <= i < |sts| && Refreshing(sts[i]) ==> sts[i].tier != tier && sts[i].tier != Raw
    requires tier != Raw
    requires forall i :: 0 <= i < |sts| && sts[i].Commit? ==>
        sts[i].unit.source != REFRESH_SOURCE + "-" + TierName(tier)
    ensures var db' := ExecAll(db, sts, m);
            && (forall r :: r in db'.refreshed && r.tier == tier ==> r in db.refreshed)
            && (forall w :: RefreshKey(tier, w, m) in db'.done ==> RefreshKey(tier, w, m) in db.done)
    decreases |sts|
  {
    if sts != [] {
      var next := Exec(db, sts[0], m);
      assert forall i :: 0 <= i < |sts[1..]| ==> sts[1..][i] == sts[i + 1];
      NothingForTier(next, sts[1..], m, tier);
      forall w | RefreshKey(tier, w, m) in next.done ensures RefreshKey(tier, w, m) in db.done {
        if Refreshing(sts[0]) { TierNamesDiffer(tier, sts[0].tier); }
      }
    }
  }

  lemma TierNamesDiffer(a: Tier, b: Tier)
    requires a != b
    ensures REFRESH_SOURCE + "-" + TierName(a) != REFRESH_SOURCE + "-" + TierName(b)
  {
    assert (REFRESH_SOURCE + "-" + TierName(a))[|REFRESH_SOURCE| + 1] == TierName(a)[0];
    assert (REFRESH_SOURCE + "-" + TierName(b))[|REFRESH_SOURCE| + 1] == TierName(b)[0];
  }

  lemma {:induction false} RecordsRun(db: Db, sts: seq<Statement>, m: Migration)
    ensures db.done <= ExecAll(db, sts, m).done
    ensures forall i :: 0 <= i < |sts| && sts[i].RecordRefresh? ==>
              RefreshKey(sts[i].tier, sts[i].window, m) in ExecAll(db, sts, m).done
    decreases |sts|
  {
    if sts != [] {
      RecordsRun(Exec(db, sts[0], m), sts[1..], m);
      forall i | 0 <= i < |sts| && sts[i].RecordRefresh?
        ensures RefreshKey(sts[i].tier, sts[i].window, m) in ExecAll(db, sts, m).done
      {
        if i > 0 { assert sts[1..][i - 1] == sts[i]; }
      }
    }
  }

  lemma {:induction false} EachIsRecorded(tier: Tier, windows: seq<Span>)
    ensures forall w :: w in windows ==> RecordRefresh(tier, w) in Refreshes(tier, windows)
    ensures forall w :: w in windows ==> RefreshWindow(tier, w) in Refreshes(tier, windows)
  {
    if windows != [] { EachIsRecorded(tier, windows[1..]); }
  }

  lemma RowSources(m: Migration, primary: string, tier: Tier)
    ensures forall i :: 0 <= i < |RowPart(m, primary)| && RowPart(m, primary)[i].Commit? ==>
              RowPart(m, primary)[i].unit.source != REFRESH_SOURCE + "-" + TierName(tier)
  {
    hide CarryPart, ReplayUnits;
    var carry, replay := CarryPart(m, primary), ReplayPart(m, primary);
    CarrySource(m, primary);
    UnitSources(m, SourceOrder(m, primary), primary);
    forall u | u in replay ensures u.source != REFRESH_SOURCE + "-" + TierName(tier) {
      var k :| 0 <= k < |SourceOrder(m, primary)|
               && u.source == WatermarkSource(BUCKET_REPLAY_SOURCE, SourceOrder(m, primary)[k], primary);
      NamespacesAreApart(SourceOrder(m, primary)[k], primary, tier);
    }
    NamespacesAreApart(primary, primary, tier);
    var rows := RowPart(m, primary);
    forall i | 0 <= i < |rows| && rows[i].Commit? ensures rows[i].unit in carry || rows[i].unit in replay {
      var first := Commits(carry) + (if m.rawFrom.None? then [] else [SetStage(Carried)]);
      if i < |carry| { assert rows[i] == Commits(carry)[i]; }
      else if i >= |first| { assert rows[i] == Commits(replay)[i - |first|]; }
    }
  }

  /** Something of the tier's refresh has been done that had not been. */
  ghost predicate RefreshBegun(db: Db, now: Db, m: Migration, tier: Tier) {
    || (exists r :: r in now.refreshed && r !in db.refreshed && r.tier == tier)
    || (exists w :: RefreshKey(tier, w, m) in now.done && RefreshKey(tier, w, m) !in db.done)
  }

  lemma HourlyPrefix(db: Db, m: Migration, span: Span, k: nat)
    requires Active(db, m) && WrittenSpan(FinalRaw(db, m), m.device) == Some(span)
    ensures var all := Program(db, m, m.sourceId.value);
            var first := RowPart(m, m.sourceId.value) + Refreshes(Hourly, RefreshWindows.Plan(span, Hourly, m.chunkMs));
            |first| <= |all| && all[..|first|] == first
  {
    hide RowPart, Refreshes, RefreshWindows.Plan, WrittenSpan;
    var raw := FinalRaw(db, m);
    var hourly := Refreshes(Hourly, RefreshWindows.Plan(span, Hourly, m.chunkMs));
    assert REFRESH_ORDER[0] == Hourly;
    assert RefreshPart(raw, m) == hourly + TierRefreshes(span, REFRESH_ORDER[1..], m.chunkMs);
  }

  /**
   * No daily window is refreshed or recorded in any run before every hourly
   * window is recorded: a day built from half its hours would stay wrong.
   */
  lemma HourlyBeforeDaily(db: Db, m: Migration, kills: seq<nat>, span: Span)
    requires Active(db, m) && WrittenSpan(FinalRaw(db, m), m.device) == Some(span)
    requires RefreshBegun(db, Attempts(db, m, kills), m, Daily)
    ensures forall w ::
          w in RefreshWindows.Plan(span, Hourly, m.chunkMs) ==> RefreshKey(Hourly, w, m) in Attempts(db, m, kills).done
  {
    hide RowPart, Refreshes, RefreshWindows.Plan, WrittenSpan, ExecAll, Exec, RefreshKey, Attempts;
    var all, rows := Program(db, m, m.sourceId.value), RowPart(m, m.sourceId.value);
    var windows := RefreshWindows.Plan(span, Hourly, m.chunkMs);
    var hourly := Refreshes(Hourly, windows);
    var k := ReachableIsPrefix(db, m, kills);
    HourlyPrefix(db, m, span, k);
    RowSources(m, m.sourceId.value, Daily);
    RowPartWrites(m, m.sourceId.value);
    RefreshesRefresh(Hourly, windows);
    assert k <= |rows + hourly| ==> all[..k] == (rows + hourly)[..k];
    if k <= |rows + hourly| {
      NoDailyYet(db, rows, hourly, k, m);
    } else {
      RecordsRun(db, all[..k], m);
      EachIsRecorded(Hourly, windows);
      forall w | w in windows ensures RefreshKey(Hourly, w, m) in Attempts(db, m, kills).done {
        var j :| 0 <= j < |hourly| && hourly[j] == RecordRefresh(Hourly, w);
        assert all[..k][|rows| + j] == (rows + hourly)[|rows| + j];
      }
    }
  }

  lemma NoDailyYet(db: Db, rows: seq<Statement>, hourly: seq<Statement>, k: nat, m: Migration)
    requires k <= |rows + hourly|
    requires forall st :: st in rows ==> WritesRows(st)
    requires forall st :: st in hourly ==> Refreshing(st) && st.tier == Hourly
    requires forall i :: 0 <= i < |rows| && rows[i].Commit? ==>
        rows[i].unit.source != REFRESH_SOURCE + "-" + TierName(Daily)
    ensures !RefreshBegun(db, ExecAll(db, (rows + hourly)[..k], m), m, Daily)
  {
    var sts := (rows + hourly)[..k];
    forall i | 0 <= i < |sts|
      ensures Refreshing(sts[i]) ==> sts[i].tier == Hourly
      ensures sts[i].Commit? ==> sts[i].unit.source != REFRESH_SOURCE + "-" + TierName(Daily)
    {
      if i < |rows| { assert sts[i] == rows[i] && rows[i] in rows; }
      else { assert sts[i] == hourly[i - |rows|] && hourly[i - |rows|] in hourly; }
    }
    NothingForTier(db, sts, m, Daily);
  }

  lemma {:induction false} RefreshesSee(db: Db, sts: seq<Statement>, m: Migration)
    requires forall i :: 0 <= i < |sts| ==> !sts[i].Commit?
    ensures forall r :: r in ExecAll(db, sts, m).refreshed && r !in db.refreshed ==>
              r.seen == |db.raw| && RefreshWindow(r.tier, r.window) in sts
    decreases |sts|
  {
    if sts != [] {
      assert forall i :: 0 <= i < |sts[1..]| ==> sts[1..][i] == sts[i + 1];
      var next := Exec(db, sts[0], m);
      RefreshesSee(next, sts[1..], m);
    }
  }

  lemma {:induction false} RowsRefreshNothing(db: Db, sts: seq<Statement>, m: Migration)
    requires forall i :: 0 <= i < |sts| ==> WritesRows(sts[i])
    ensures ExecAll(db, sts, m).refreshed == db.refreshed
    decreases |sts|
  {
    if sts != [] {
      assert forall i :: 0 <= i < |sts[1..]| ==> sts[1..][i] == sts[i + 1];
      RowsRefreshNothing(Exec(db, sts[0], m), sts[1..], m);
    }
  }

  /** No window is refreshed, in any run, before the last row is in. */
  lemma RefreshesSeeEveryRow(db: Db, m: Migration, kills: seq<nat>)
    requires Active(db, m)
    ensures forall r :: r in Attempts(db, m, kills).refreshed && r !in db.refreshed ==> r.seen == |FinalRaw(db, m)|
  {
    hide RowPart, RefreshPart, ExecAll, Exec, Attempts;
    var all, rows := Program(db, m, m.sourceId.value), RowPart(m, m.sourceId.value);
    var k := ReachableIsPrefix(db, m, kills);
    RowPartWrites(m, m.sourceId.value);
    if k <= |rows| {
      assert all[..k] == rows[..k];
      forall i | 0 <= i < k ensures WritesRows(rows[..k][i]) { assert rows[i] in rows; }
      RowsRefreshNothing(db, rows[..k], m);
    } else {
      var later := all[|rows|..k];
      assert all[..k] == rows + later;
      ExecConcat(db, rows, later, m);
      forall i | 0 <= i < |rows| ensures WritesRows(rows[i]) { assert rows[i] in rows; }
      RowsRefreshNothing(db, rows, m);
      LaterNeverCommits(db, m, k);
      RefreshesSee(ExecAll(db, rows, m), later, m);
    }
  }

  lemma LaterNeverCommits(db: Db, m: Migration, k: nat)
    requires Active(db, m) && |RowPart(m, m.sourceId.value)| <= k <= |Program(db, m, m.sourceId.value)|
    ensures forall i :: |RowPart(m, m.sourceId.value)| <= i < k ==> !Program(db, m, m.sourceId.value)[i].Commit?
  {
    hide RowPart, RefreshPart, ExecAll;
    var rows := RowPart(m, m.sourceId.value);
    var refreshes := RefreshPart(ExecAll(db, rows, m).raw, m);
    RefreshPartRefreshes(ExecAll(db, rows, m).raw, m);
    var all := Program(db, m, m.sourceId.value);
    forall i | |rows| <= i < k ensures !all[i].Commit? {
      assert all[i] == (refreshes + [SetStage(Backfilled)])[i - |rows|];
      if i - |rows| < |refreshes| { assert refreshes[i - |rows|] in refreshes; }
    }
  }
}
