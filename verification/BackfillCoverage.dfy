/** A finished backfill has materialized every bucket and carried every legacy bucket once. */
module BackfillCoverage {
  import opened Wrappers
  import opened Database
  import opened Spans
  import opened Replay
  import RefreshWindows
  import opened Backfill
  import opened BackfillSafety
  import opened BackfillGuarantees

  // ----- every bucket is materialized from every row -----------------------------------

  predicate StartsAscend(windows: seq<Span>) {
    forall i, j :: 0 <= i < j < |windows| ==> windows[i].start < windows[j].start
  }

  lemma {:induction false} TilesStartsAscend(windows: seq<Span>, from: int, end: int)
    requires Tiles(windows, from, end)
    ensures StartsAscend(windows) && forall i :: 0 <= i < |windows| ==> from <= windows[i].start
  {
    if windows != [] { TilesStartsAscend(windows[1..], windows[0].end, end); }
  }

  predicate NoneRefreshed(db: Db, tier: Tier, windows: seq<Span>, m: Migration) {
    forall i :: 0 <= i < |windows| ==> RefreshKey(tier, windows[i], m) !in db.done
  }

  lemma RefreshStep(db: Db, tier: Tier, windows: seq<Span>, m: Migration)
    requires windows != [] && StartsAscend(windows) && NoneRefreshed(db, tier, windows, m)
    ensures var next := Exec(Exec(db, RefreshWindow(tier, windows[0]), m), RecordRefresh(tier, windows[0]), m);
            && ExecAll(db, Refreshes(tier, windows), m) == ExecAll(next, Refreshes(tier, windows[1..]), m)
            && Refresh(tier, windows[0], |db.raw|) in next.refreshed && db.refreshed <= next.refreshed
                && next.raw == db.raw
            && next.done == db.done + {RefreshKey(tier, windows[0], m)}
            && StartsAscend(windows[1..]) && NoneRefreshed(next, tier, windows[1..], m)
  {
    var first := [RefreshWindow(tier, windows[0]), RecordRefresh(tier, windows[0])];
    assert first[1..] == [RecordRefresh(tier, windows[0])] && first[1..][1..] == [];
    ExecConcat(db, first, Refreshes(tier, windows[1..]), m);
    ExecOne(Exec(db, first[0], m), first[1], m);
  }

  lemma {:induction false} RefreshesRun(db: Db, tier: Tier, windows: seq<Span>, m: Migration)
    requires StartsAscend(windows) && NoneRefreshed(db, tier, windows, m)
    ensures var db' := ExecAll(db, Refreshes(tier, windows), m);
            && db'.raw == db.raw && db.refreshed <= db'.refreshed
            && (forall w :: w in windows ==> Refresh(tier, w, |db.raw|) in db'.refreshed)
            && (forall p :: p in db'.done ==> p in db.done || p.source == REFRESH_SOURCE + "-" + TierName(tier))
    decreases |windows|
  {
    if windows != [] {
      hide Exec, ExecAll, Refreshes, StartsAscend, NoneRefreshed;
      var next := Exec(Exec(db, RefreshWindow(tier, windows[0]), m), RecordRefresh(tier, windows[0]), m);
      RefreshStep(db, tier, windows, m);
      RefreshesRun(next, tier, windows[1..], m);
    }
  }

  /** No key of any of the tiers' windows is recorded. */
  ghost predicate TiersClear(db: Db, tiers: seq<Tier>, m: Migration) {
    forall i :: 0 <= i < |tiers| ==> forall w: Span :: RefreshKey(tiers[i], w, m) !in db.done
  }

  lemma {:induction false} TiersRun(db: Db, span: Span, tiers: seq<Tier>, m: Migration)
    requires Raw !in tiers && Distinct(tiers) && TiersClear(db, tiers, m) && span.start < span.end
    ensures var db' := ExecAll(db, TierRefreshes(span, tiers, m.chunkMs), m);
            && db'.raw == db.raw && db.refreshed <= db'.refreshed
            && forall i :: 0 <= i < |tiers| ==>
                 forall w :: w in RefreshWindows.Plan(span, tiers[i], m.chunkMs)
                     ==> Refresh(tiers[i], w, |db.raw|) in db'.refreshed
    decreases |tiers|
  {
    if tiers != [] {
      hide Exec, ExecAll, Refreshes, RefreshWindows.Plan, StartsAscend;
      var windows := RefreshWindows.Plan(span, tiers[0], m.chunkMs);
      var now := ExecAll(db, Refreshes(tiers[0], windows), m);
      RefreshWindows.WindowsReachAndFit(span, tiers[0], m.chunkMs);
      TilesStartsAscend(windows, RefreshWindows.PaddedStart(span, tiers[0]), RefreshWindows.PaddedEnd(span, tiers[0]));
      RefreshesRun(db, tiers[0], windows, m);
      forall i | 0 <= i < |tiers[1..]| ensures forall w: Span :: RefreshKey(tiers[1..][i], w, m) !in now.done {
        assert tiers[1..][i] == tiers[i + 1];
        TierNamesDiffer(tiers[0], tiers[i + 1]);
      }
      TiersRun(now, span, tiers[1..], m);
      ExecConcat(db, Refreshes(tiers[0], windows), TierRefreshes(span, tiers[1..], m.chunkMs), m);
      var end := ExecAll(db, TierRefreshes(span, tiers, m.chunkMs), m);
      forall i | 0 <= i < |tiers|
        ensures forall w ::
              w in RefreshWindows.Plan(span, tiers[i], m.chunkMs) ==> Refresh(tiers[i], w, |db.raw|) in end.refreshed
      {
        if i > 0 { assert tiers[1..][i - 1] == tiers[i]; }
      }
    }
  }

  lemma RowsRecordNoRefresh(db: Db, m: Migration, tier: Tier)
    requires Active(db, m) && Unseen(db, m) && tier != Raw
    ensures forall w: Span :: RefreshKey(tier, w, m) !in ExecAll(db, RowPart(m, m.sourceId.value), m).done
  {
    hide RowPart, ExecAll, Exec, RefreshKey;
    var rows := RowPart(m, m.sourceId.value);
    RowSources(m, m.sourceId.value, tier);
    RowPartWrites(m, m.sourceId.value);
    forall i | 0 <= i < |rows| ensures WritesRows(rows[i]) { assert rows[i] in rows; }
    NothingForTier(db, rows, m, tier);
  }

  lemma CleanRunRefreshes(db: Db, m: Migration, span: Span, tier: Tier)
    requires Active(db, m) && Unseen(db, m) && tier != Raw
    requires WrittenSpan(FinalRaw(db, m), m.device) == Some(span) && span.start < span.end
    ensures forall w :: w in RefreshWindows.Plan(span, tier, m.chunkMs) ==>
              Refresh(tier, w, |CleanRun(db, m).raw|) in CleanRun(db, m).refreshed
  {
    hide RowPart, ExecAll, Exec, TierRefreshes, RefreshWindows.Plan, WrittenSpan, Unseen, RefreshKey;
    var primary := m.sourceId.value;
    var rows, refreshes := RowPart(m, primary), TierRefreshes(span, REFRESH_ORDER, m.chunkMs);
    var landed := ExecAll(db, rows, m);
    forall i | 0 <= i < |REFRESH_ORDER| ensures forall w: Span :: RefreshKey(REFRESH_ORDER[i], w, m) !in landed.done {
      RowsRecordNoRefresh(db, m, REFRESH_ORDER[i]);
    }
    TiersRun(landed, span, REFRESH_ORDER, m);
    Regroup(rows, refreshes, [SetStage(Backfilled)]);
    ExecConcat(db, rows, refreshes, m);
    ExecConcat(db, rows + refreshes, [SetStage(Backfilled)], m);
    StageStep(ExecAll(db, rows + refreshes, m), m, Backfilled);
    var i := match tier case Hourly => 0 case Daily => 1 case Minute => 2;
    assert REFRESH_ORDER[i] == tier;
  }

  lemma {:induction false} SpanHoldsRows(raw: seq<RawRow>, device: int)
    ensures WrittenSpan(raw, device).None? <==> forall i :: 0 <= i < |raw| ==> raw[i].device != device
    ensures WrittenSpan(raw, device).Some? ==>
              forall i :: 0 <= i < |raw| && raw[i].device == device ==>
                WrittenSpan(raw, device).value.start <= raw[i].time <= WrittenSpan(raw, device).value.end
    ensures WrittenSpan(raw, device).Some? ==>
              && (exists row :: row in raw && row.device == device && row.time == WrittenSpan(raw, device).value.start)
              && (exists row :: row in raw && row.device == device && row.time == WrittenSpan(raw, device).value.end)
  {
    if raw != [] {
      var before, last := raw[..|raw| - 1], raw[|raw| - 1];
      SpanHoldsRows(before, device);
      assert forall i :: 0 <= i < |before| ==> before[i] == raw[i];
      assert last in raw && forall row :: row in before ==> row in raw;
    }
  }

  /**
   * At `backfilled`, with chunks of whole days, every bucket of every tier with one
   * of the device's rows in it lies wholly in exactly one window, and that window
   * was refreshed when all of the rows were in.
   */
  lemma EveryBucketIsMaterialized(db: Db, m: Migration, kills: seq<nat>, tier: Tier, b: int, i: nat)
    requires Active(db, m) && Unseen(db, m) && Attempts(db, m, kills).stage == Backfilled
    requires tier != Raw && RefreshWindows.Step(m.chunkMs) % BucketWidthMs(tier) == 0
    requires var raw := Attempts(db, m, kills).raw;
             && i < |raw| && raw[i].device == m.device
             && b % BucketWidthMs(tier) == 0 && b <= raw[i].time < b + BucketWidthMs(tier)
             && WrittenSpan(raw, m.device).Some?
                 && WrittenSpan(raw, m.device).value.start < WrittenSpan(raw, m.device).value.end
    ensures var now := Attempts(db, m, kills);
            var windows := RefreshWindows.Plan(WrittenSpan(now.raw, m.device).value, tier, m.chunkMs);
            && RefreshWindows.Containing(windows, b, BucketWidthMs(tier)) == 1
            && forall w :: w in windows ==> Refresh(tier, w, |now.raw|) in now.refreshed
  {
    hide RowPart, RefreshPart, ExecAll, Exec, Unseen, WrittenSpan, RefreshWindows.Plan, RefreshWindows.Containing,
        Attempts;
    var all := Program(db, m, m.sourceId.value);
    BackfillIsCrashEquivalent(db, m, kills);
    RowsAreFinal(db, m, m.sourceId.value, |all|);
    assert all[..|all|] == all;
    var raw := Attempts(db, m, kills).raw;
    var span := WrittenSpan(raw, m.device).value;
    CleanRunRefreshes(db, m, span, tier);
    SpanHoldsRows(raw, m.device);
    RefreshWindows.TouchedIsInside(span, tier, b);
    RefreshWindows.WholeStepsCoverOnce(span, tier, m.chunkMs, b);
  }

  // ----- exactly when nothing is left out ------------------------------------------------------

  lemma {:induction false} RefreshesPlanned(tier: Tier, windows: seq<Span>)
    ensures forall t: Tier, w: Span :: RefreshWindow(t, w) in Refreshes(tier, windows) ==> t == tier && w in windows
  {
    if windows != [] { RefreshesPlanned(tier, windows[1..]); }
  }

  lemma {:induction false} TierRefreshesPlanned(span: Span, tiers: seq<Tier>, chunkMs: int)
    requires Raw !in tiers
    ensures forall t: Tier, w: Span :: RefreshWindow(t, w) in TierRefreshes(span, tiers, chunkMs) ==>
              t != Raw && w in RefreshWindows.Plan(span, t, chunkMs)
  {
    if tiers != [] {
      hide RefreshWindows.Plan;
      RefreshesPlanned(tiers[0], RefreshWindows.Plan(span, tiers[0], chunkMs));
      TierRefreshesPlanned(span, tiers[1..], chunkMs);
    }
  }

  /** A run refreshes nothing but the planned windows. */
  lemma OnlyPlannedIsRefreshed(db: Db, m: Migration, span: Span)
    requires Active(db, m) && WrittenSpan(FinalRaw(db, m), m.device) == Some(span)
    ensures forall r :: r in CleanRun(db, m).refreshed && r !in db.refreshed ==>
              r.tier != Raw && r.window in RefreshWindows.Plan(span, r.tier, m.chunkMs)
  {
    hide RowPart, TierRefreshes, ExecAll, Exec, RefreshWindows.Plan, WrittenSpan;
    var all, rows := Program(db, m, m.sourceId.value), RowPart(m, m.sourceId.value);
    var refreshes := TierRefreshes(span, REFRESH_ORDER, m.chunkMs);
    var later := refreshes + [SetStage(Backfilled)];
    ExecConcat(db, rows, later, m);
    RowPartWrites(m, m.sourceId.value);
    forall i | 0 <= i < |rows| ensures WritesRows(rows[i]) { assert rows[i] in rows; }
    RowsRefreshNothing(db, rows, m);
    TierRefreshesRefresh(span, REFRESH_ORDER, m.chunkMs);
    forall i | 0 <= i < |later| ensures !later[i].Commit? {
      if i < |refreshes| { assert later[i] == refreshes[i] && refreshes[i] in refreshes; }
    }
    RefreshesSee(ExecAll(db, rows, m), later, m);
    TierRefreshesPlanned(span, REFRESH_ORDER, m.chunkMs);
  }

  /** Some refresh of the tier has covered the whole bucket after the last row came in. */
  ghost predicate Materialized(db: Db, tier: Tier, b: int)
    requires tier != Raw
  {
    exists r :: r in db.refreshed && r.tier == tier && r.seen == |db.raw|
             && r.window.start <= b && b + BucketWidthMs(tier) <= r.window.end
  }

  ghost predicate AllMaterialized(db: Db, span: Span, tier: Tier)
    requires tier != Raw
  {
    forall b :: RefreshWindows.Touches(b, span, BucketWidthMs(tier)) ==> Materialized(db, tier, b)
  }

  lemma {:induction false} ContainedIn(windows: seq<Span>, b: int, width: int)
    ensures RefreshWindows.Containing(windows, b, width) >= 1
       <==> exists i :: 0 <= i < |windows| && windows[i].start <= b && b + width <= windows[i].end
  {
    if windows != [] {
      ContainedIn(windows[1..], b, width);
      forall i | 0 < i < |windows| ensures windows[i] == windows[1..][i - 1] {}
    }
  }

  lemma MaterializedIsContained(db: Db, m: Migration, span: Span, tier: Tier, b: int)
    requires Active(db, m) && Unseen(db, m) && db.refreshed == {} && tier != Raw
    requires WrittenSpan(FinalRaw(db, m), m.device) == Some(span)
    ensures Materialized(CleanRun(db, m), tier, b)
       <==> RefreshWindows.Containing(RefreshWindows.Plan(span, tier, m.chunkMs), b, BucketWidthMs(tier)) >= 1
  {
    hide CleanRun, Program, RefreshWindows.Plan, WrittenSpan, Unseen, RefreshWindows.Containing;
    var now, windows := CleanRun(db, m), RefreshWindows.Plan(span, tier, m.chunkMs);
    ContainedIn(windows, b, BucketWidthMs(tier));
    OnlyPlannedIsRefreshed(db, m, span);
    RefreshWindows.NothingToRefresh(span, tier, m.chunkMs);
    if span.start < span.end {
      CleanRunRefreshes(db, m, span, tier);
      if i :| 0 <= i < |windows| && windows[i].start <= b && b + BucketWidthMs(tier) <= windows[i].end {
        assert Refresh(tier, windows[i], |now.raw|) in now.refreshed;
      }
    }
  }

  /**
   * At `backfilled`, every bucket that the written span touches has been materialized
   * from all of the rows, if and only if the rows have more than one instant, and the
   * step is a whole number of buckets or all of them fit one window.
   */
  lemma MaterializedExactly(db: Db, m: Migration, kills: seq<nat>, span: Span, tier: Tier)
    requires Active(db, m) && Unseen(db, m) && db.refreshed == {} && tier != Raw
    requires Attempts(db, m, kills).stage == Backfilled
    requires WrittenSpan(Attempts(db, m, kills).raw, m.device) == Some(span)
    ensures AllMaterialized(Attempts(db, m, kills), span, tier)
       <==> span.start < span.end
            && (RefreshWindows.Step(m.chunkMs) % BucketWidthMs(tier) == 0
                || RefreshWindows.PaddedEnd(span, tier) - RefreshWindows.PaddedStart(span, tier)
                   < RefreshWindows.Step(m.chunkMs) + BucketWidthMs(tier))
  {
    hide RowPart, CleanRun, Program, Attempts, RefreshWindows.Plan, WrittenSpan, Unseen, RefreshWindows.Containing,
        Materialized, RefreshWindows.Step;
    var now, width := Attempts(db, m, kills), BucketWidthMs(tier);
    BackfillIsCrashEquivalent(db, m, kills);
    FinishedRows(db, m);
    forall b ensures Materialized(now, tier, b)
          <==> RefreshWindows.Containing(RefreshWindows.Plan(span, tier, m.chunkMs), b, width) >= 1 {
      MaterializedIsContained(db, m, span, tier, b);
    }
    if span.start < span.end {
      RefreshWindows.CoverageExactly(span, tier, m.chunkMs);
    } else {
      SpanIsForward(now.raw, m.device);
      var b := RefreshWindows.FloorTo(span.start, width);
      RefreshWindows.FloorIsClose(span.start, tier);
      RefreshWindows.NothingToRefresh(span, tier, m.chunkMs);
      NoWindow(b, width);
      assert RefreshWindows.Touches(b, span, width) && !Materialized(now, tier, b);
    }
  }

  lemma NoWindow(b: int, width: int)
    ensures RefreshWindows.Containing([], b, width) == 0
  {
  }

  lemma FinishedRows(db: Db, m: Migration)
    requires Active(db, m)
    ensures CleanRun(db, m).raw == FinalRaw(db, m)
  {
    hide RowPart, RefreshPart, ExecAll, Exec;
    var all := Program(db, m, m.sourceId.value);
    RowsAreFinal(db, m, m.sourceId.value, |all|);
    assert all[..|all|] == all;
  }

  lemma {:induction false} SpanIsForward(raw: seq<RawRow>, device: int)
    ensures WrittenSpan(raw, device).Some? ==>
              WrittenSpan(raw, device).value.start <= WrittenSpan(raw, device).value.end
  {
    if raw != [] { SpanIsForward(raw[..|raw| - 1], device); }
  }

  // ----- every legacy bucket is replayed once --------------------------------------------

  function Times(rows: seq<RawRow>, row: RawRow): nat { multiset(rows)[row] }

  /** The bucket becomes `row` when it is replayed at `durMs`. */
  predicate Becomes(b: Bucket, id: string, durMs: Option<int>, m: Migration, row: RawRow) {
    b.id == id && b.value.Some? && b.metric !in m.config && RawOf(b, durMs, m.device) == row
  }

  /** Over the buckets of one tier that become `row`: how many chunks of that tier hold their instant. */
  function TierTimes(rows: seq<Bucket>, tier: Tier, id: string, chunks: seq<Chunk>, m: Migration, row: RawRow): nat
    requires tier != Raw
  {
    if rows == [] then 0
    else
      var b := rows[|rows| - 1];
      TierTimes(rows[..|rows| - 1], tier, id, chunks, m, row)
      + if Becomes(b, id, Some(BucketWidthMs(tier)), m, row) then TierHits(chunks, tier, b.time) else 0
  }

  lemma {:induction false} SeriesTimes(rows: seq<Bucket>, u: Unit, tier: Tier, m: Migration, row: RawRow)
    requires tier != Raw && u.durMs == Some(BucketWidthMs(tier))
    ensures Times(SeriesRows(rows, u, m), row) == TierTimes(rows, tier, u.id, [Chunk(tier, u.span)], m, row)
  {
    if rows != [] {
      var b := rows[|rows| - 1];
      SeriesTimes(rows[..|rows| - 1], u, tier, m, row);
      OneChunk(Chunk(tier, u.span), tier, b.time);
    }
  }

  lemma OneChunk(c: Chunk, tier: Tier, t: int)
    ensures TierHits([c], tier, t) == if c.tier == tier && c.span.Holds(t) then 1 else 0
  {
    assert [c][1..] == [];
  }

  lemma {:induction false} TierTimesConcat(rows: seq<Bucket>, tier: Tier, id: string, x: seq<Chunk>, y: seq<Chunk>,
      m: Migration, row: RawRow)
    requires tier != Raw
    ensures TierTimes(rows, tier, id, x + y, m, row)
        == TierTimes(rows, tier, id, x, m, row) + TierTimes(rows, tier, id, y, m, row)
  {
    if rows != [] {
      TierTimesConcat(rows[..|rows| - 1], tier, id, x, y, m, row);
      TierHitsConcat(x, y, tier, rows[|rows| - 1].time);
    }
  }

  lemma {:induction false} OtherTier(rows: seq<Bucket>, tier: Tier, other: Tier, id: string, span: Span,
      m: Migration, row: RawRow)
    requires tier != Raw && tier != other
    ensures TierTimes(rows, tier, id, [Chunk(other, span)], m, row) == 0
  {
    if rows != [] {
      OtherTier(rows[..|rows| - 1], tier, other, id, span, m, row);
      OneChunk(Chunk(other, span), tier, rows[|rows| - 1].time);
    }
  }

  function AllTiersTimes(m: Migration, id: string, chunks: seq<Chunk>, row: RawRow): nat {
    TierTimes(Relation(m, Minute), Minute, id, chunks, m, row)
    + TierTimes(Relation(m, Hourly), Hourly, id, chunks, m, row)
    + TierTimes(Relation(m, Daily), Daily, id, chunks, m, row)
  }

  lemma ChunkTimes(m: Migration, id: string, c: Chunk, row: RawRow)
    requires c.tier != Raw
    ensures TierTimes(Relation(m, c.tier), c.tier, id, [c], m, row) == AllTiersTimes(m, id, [c], row)
  {
    if c.tier != Minute { OtherTier(Relation(m, Minute), Minute, c.tier, id, c.span, m, row); }
    if c.tier != Hourly { OtherTier(Relation(m, Hourly), Hourly, c.tier, id, c.span, m, row); }
    if c.tier != Daily { OtherTier(Relation(m, Daily), Daily, c.tier, id, c.span, m, row); }
  }

  lemma AllTiersConcat(m: Migration, id: string, x: seq<Chunk>, y: seq<Chunk>, row: RawRow)
    ensures AllTiersTimes(m, id, x + y, row) == AllTiersTimes(m, id, x, row) + AllTiersTimes(m, id, y, row)
  {
    TierTimesConcat(Relation(m, Minute), Minute, id, x, y, m, row);
    TierTimesConcat(Relation(m, Hourly), Hourly, id, x, y, m, row);
    TierTimesConcat(Relation(m, Daily), Daily, id, x, y, m, row);
  }

  lemma {:induction false} NoChunks(rows: seq<Bucket>, tier: Tier, id: string, m: Migration, row: RawRow)
    requires tier != Raw
    ensures TierTimes(rows, tier, id, [], m, row) == 0
  {
    if rows != [] { NoChunks(rows[..|rows| - 1], tier, id, m, row); }
  }

  lemma {:induction false} UnitsTimes(m: Migration, id: string, primary: string, chunks: seq<Chunk>, row: RawRow)
    requires forall i :: 0 <= i < |chunks| ==> chunks[i].tier != Raw
    ensures Times(AllRows(BucketUnits(m, id, primary, chunks), m), row) == AllTiersTimes(m, id, chunks, row)
  {
    if chunks == [] {
      NoChunks(Relation(m, Minute), Minute, id, m, row);
      NoChunks(Relation(m, Hourly), Hourly, id, m, row);
      NoChunks(Relation(m, Daily), Daily, id, m, row);
    } else {
      var us := BucketUnits(m, id, primary, chunks);
      assert us[1..] == BucketUnits(m, id, primary, chunks[1..]);
      UnitsTimes(m, id, primary, chunks[1..], row);
      SeriesTimes(us[0].rows, us[0], chunks[0].tier, m, row);
      ChunkTimes(m, id, chunks[0], row);
      assert chunks == [chunks[0]] + chunks[1..];
      AllTiersConcat(m, id, [chunks[0]], chunks[1..], row);
    }
  }

  /**
   * For every legacy source id the replay writes each row as often as there are
   * legacy buckets that become it in the tier that answers their instant, and no
   * instant is answered twice: each legacy bucket is carried once or not at all.
   */
  lemma EachBucketReplayedOnce(m: Migration, id: string, primary: string, row: RawRow, tier: Tier, t: int)
    ensures Times(AllRows(BucketUnits(m, id, primary, IdChunks(m, id)), m), row)
        == AllTiersTimes(m, id, IdChunks(m, id), row)
    ensures TierHits(IdChunks(m, id), tier, t) <= 1
  {
    UnitsTimes(m, id, primary, IdChunks(m, id), row);
    var ws := TierWindows(m, id, TIERS);
    if ws != [] {
      var from, end := FirstFrom(ws), if m.replayTo.Some? then Min(m.replayTo.value, LastTo(ws)) else LastTo(ws);
      if from <= end {
        ReplayTiles(ws, from, from, end);
        TilesHitOnce(SpansOf(IdPieces(m, id)), from, end, t);
        TierHitsBounded(IdPieces(m, id), tier, t);
      }
    }
  }
}
