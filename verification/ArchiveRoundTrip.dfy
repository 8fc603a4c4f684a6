/**
 * Export and import together: the archive an export writes is one the import's
 * guarantees hold for, and what an import of it puts back.
 */
module ArchiveRoundTrip {
  import opened Wrappers
  import opened Database
  import opened Spans
  import opened Replay
  import opened ExportPlan
  import opened ExportRun
  import opened ArchiveImport
  import opened ImportSafety
  import opened ImportGuarantees
  import opened ImportCoverage

  // ----- the archive of an export --------------------------------------------------

  function ExportVisits(source: Source, tiers: seq<Tier>): seq<Visit> {
    PlanVisits(source, ChunksOf(PlannedPieces(SourceWindows(source, tiers))))
  }

  /** From the start of the first chunk to the end of the last. */
  function ManifestSpan(chunks: seq<Chunk>): Option<Span> {
    if chunks == [] then None else Some(Span(chunks[0].span.start, chunks[|chunks| - 1].span.end))
  }

  /** The readings the export wrote, and what its manifest says of them. */
  function ExportOf(source: Source, tiers: seq<Tier>, config: set<string>, devices: seq<string>): Archive {
    var sink := AllWritten(EMPTY_SINK, ExportVisits(source, tiers), config);
    Archive(sink.readings, ManifestSpan(ChunksOf(PlannedPieces(SourceWindows(source, tiers)))),
            (set tier: Tier | Count(sink.streams, tier) > 0), devices, config)
  }

  /** The manifest lists every device of the file once, and the target knows each by an id of its own. */
  predicate Resolves(source: Source, tiers: seq<Tier>, config: set<string>, devices: seq<string>, env: Env) {
    && AllWritten(EMPTY_SINK, ExportVisits(source, tiers), config).devices <= (set d | d in devices)
    && Distinct(devices) && (forall d :: d in devices ==> d in env.ids)
    && (forall d, e :: d in devices && e in devices && env.ids[d] == env.ids[e] ==> d == e)
  }

  lemma {:induction false} ReadingsAreVisits(visits: seq<Visit>, config: set<string>, r: Reading)
    requires r in ReadingsOf(visits, config)
    ensures exists v :: v in visits && v.row.time == r.time && v.tier == r.tier
  {
    var before, v := visits[..|visits| - 1], visits[|visits| - 1];
    assert v in visits;
    if r in ReadingsOf(before, config) {
      ReadingsAreVisits(before, config, r);
      var w :| w in before && w.row.time == r.time && w.tier == r.tier;
      assert w in visits;
    }
  }

  lemma {:induction false} TierIsCounted(rs: seq<Reading>, r: Reading)
    requires r in rs
    ensures TierCount(rs, r.tier) > 0
  {
    if r != rs[|rs| - 1] { TierIsCounted(rs[..|rs| - 1], r); }
  }

  predicate Planned(chunks: seq<Chunk>, tier: Tier, t: int) {
    exists i :: 0 <= i < |chunks| && chunks[i].tier == tier && chunks[i].span.Holds(t)
  }

  lemma {:induction false} HeldByChunk(chunks: seq<Chunk>, tier: Tier, t: int)
    requires TierHits(chunks, tier, t) > 0
    ensures Planned(chunks, tier, t)
  {
    if !(chunks[0].tier == tier && chunks[0].span.Holds(t)) {
      HeldByChunk(chunks[1..], tier, t);
      var i :| 0 <= i < |chunks[1..]| && chunks[1..][i].tier == tier && chunks[1..][i].span.Holds(t);
      assert chunks[i + 1] == chunks[1..][i];
    }
  }

  lemma InManifestSpan(chunks: seq<Chunk>, tier: Tier, t: int)
    requires ChunksAscend(chunks) && ChunksForward(chunks) && Planned(chunks, tier, t)
    ensures ManifestSpan(chunks).Some? && ManifestSpan(chunks).value.Holds(t)
  {
    var i :| 0 <= i < |chunks| && chunks[i].span.Holds(t);
    assert i > 0 ==> chunks[0].span.start < chunks[0].span.end <= chunks[i].span.start;
    assert i < |chunks| - 1 ==> chunks[i].span.end <= chunks[|chunks| - 1].span.start < chunks[|chunks| - 1].span.end;
  }

  lemma PlannedChunksAscend(source: Source, tiers: seq<Tier>)
    ensures var chunks := ChunksOf(PlannedPieces(SourceWindows(source, tiers)));
            ChunksAscend(chunks) && ChunksForward(chunks)
  {
    var windows := SourceWindows(source, tiers);
    PlanSpanForward(source, tiers);
    if windows != [] {
      ExportTiles(windows, FirstFrom(windows), LastTo(windows));
      TilesAscend(PlannedPieces(windows), FirstFrom(windows), LastTo(windows));
    }
  }

  /** A visited row lies in a chunk that the plan gave to its tier. */
  lemma VisitIsPlanned(source: Source, tiers: seq<Tier>, v: Visit)
    requires v in ExportVisits(source, tiers)
    ensures Planned(ChunksOf(PlannedPieces(SourceWindows(source, tiers))), v.tier, v.row.time)
  {
    hide PlanVisits, PlannedPieces, Planned;
    var chunks := ChunksOf(PlannedPieces(SourceWindows(source, tiers)));
    PlanVisitsCount(source, chunks, v);
    assert v in multiset(PlanVisits(source, chunks));
    assert TierHits(chunks, v.tier, v.row.time) > 0;
    HeldByChunk(chunks, v.tier, v.row.time);
  }

  lemma VisitIsInSpan(source: Source, tiers: seq<Tier>, v: Visit)
    requires v in ExportVisits(source, tiers)
    ensures var span := ManifestSpan(ChunksOf(PlannedPieces(SourceWindows(source, tiers))));
            span.Some? && span.value.Holds(v.row.time)
  {
    hide ExportVisits, PlannedPieces, ManifestSpan;
    VisitIsPlanned(source, tiers, v);
    PlannedChunksAscend(source, tiers);
    InManifestSpan(ChunksOf(PlannedPieces(SourceWindows(source, tiers))), v.tier, v.row.time);
  }

  /** An export's manifest is true of its readings: what the import's guarantees ask of an archive. */
  lemma ExportIsConsistent(source: Source, tiers: seq<Tier>, config: set<string>, devices: seq<string>, env: Env)
    requires Resolves(source, tiers, config, devices, env)
    requires ExportOf(source, tiers, config, devices).readings != []
    ensures Consistent(ExportOf(source, tiers, config, devices), env)
  {
    hide ExportVisits, AllWritten, ManifestSpan, PlannedPieces, SourceWindows, ReadingsOf;
    var a, visits := ExportOf(source, tiers, config, devices), ExportVisits(source, tiers);
    var sink := AllWritten(EMPTY_SINK, visits, config);
    SinkIsFaithful(visits, config);
    forall r | r in a.readings
      ensures a.span.Some? && a.span.value.Holds(r.time) && r.series.device in devices && r.tier in a.declared
    {
      ReadingsAreVisits(visits, config, r);
      var v :| v in visits && v.row.time == r.time && v.tier == r.tier;
      VisitIsInSpan(source, tiers, v);
      TierIsCounted(a.readings, r);
      assert r.series.device in sink.devices;
    }
    assert a.readings[0] in a.readings;
  }

  lemma {:induction false} CountedIsThere(rs: seq<Reading>, tier: Tier)
    requires TierCount(rs, tier) > 0
    ensures exists r :: r in rs && r.tier == tier
  {
    var before, last := rs[..|rs| - 1], rs[|rs| - 1];
    if last.tier != tier {
      CountedIsThere(before, tier);
      var r :| r in before && r.tier == tier;
      assert r in rs;
    }
  }

  /** The least span that holds all of the chunks. */
  predicate Encloses(span: Span, chunks: seq<Chunk>) {
    && (forall i :: 0 <= i < |chunks| ==> span.start <= chunks[i].span.start && chunks[i].span.end <= span.end)
    && (exists i :: 0 <= i < |chunks| && chunks[i].span.start == span.start)
    && (exists i :: 0 <= i < |chunks| && chunks[i].span.end == span.end)
  }

  /** A manifest declares the tiers that its readings are of and no other, and the least span that holds the plan. */
  lemma ManifestIsExact(source: Source, tiers: seq<Tier>, config: set<string>, devices: seq<string>)
    ensures var a, chunks :=
        ExportOf(source, tiers, config, devices), ChunksOf(PlannedPieces(SourceWindows(source, tiers)));
            && (forall tier :: tier in a.declared <==> exists r :: r in a.readings && r.tier == tier)
            && (if chunks == [] then a.span.None? else a.span.Some? && Encloses(a.span.value, chunks))
  {
    hide ExportVisits, AllWritten, PlannedPieces, SourceWindows, ReadingsOf;
    var a, visits := ExportOf(source, tiers, config, devices), ExportVisits(source, tiers);
    var chunks := ChunksOf(PlannedPieces(SourceWindows(source, tiers)));
    SinkIsFaithful(visits, config);
    forall r | r in a.readings ensures r.tier in a.declared { TierIsCounted(a.readings, r); }
    forall tier | tier in a.declared ensures exists r :: r in a.readings && r.tier == tier {
      CountedIsThere(a.readings, tier);
    }
    PlannedChunksAscend(source, tiers);
    if chunks != [] { EndsEnclose(chunks); }
  }

  lemma EndsEnclose(chunks: seq<Chunk>)
    requires chunks != [] && ChunksAscend(chunks) && ChunksForward(chunks)
    ensures ManifestSpan(chunks).Some? && Encloses(ManifestSpan(chunks).value, chunks)
  {
    forall i | 0 <= i < |chunks|
      ensures chunks[0].span.start <= chunks[i].span.start && chunks[i].span.end <= chunks[|chunks| - 1].span.end
    {
      assert i > 0 ==> chunks[0].span.start < chunks[0].span.end <= chunks[i].span.start;
    }
    assert chunks[0].span.start == ManifestSpan(chunks).value.start;
    assert chunks[|chunks| - 1].span.end == ManifestSpan(chunks).value.end;
  }

  /** An export with something in it, for a target that knows its devices. */
  predicate Importable(source: Source, tiers: seq<Tier>, config: set<string>, devices: seq<string>,
                       env: Env): (ok: bool)
    ensures ok ==> Consistent(ExportOf(source, tiers, config, devices), env)
  {
    && Resolves(source, tiers, config, devices, env) && ExportOf(source, tiers, config, devices).readings != []
    && (ExportIsConsistent(source, tiers, config, devices, env); true)
  }

  // ----- one row -----------------------------------------------------------------

  /** A stored row that should come back: a value, and not configuration. */
  predicate Travels(row: Row, config: set<string>) { row.value.Some? && row.series.metric !in config }

  /** The same row in the other database: its own instant, value and duration, the device's id there. */
  function Restored(v: Visit, env: Env): RawRow
    requires v.row.value.Some?
  {
    RawRow(v.row.time, v.row.value.value, Stands(v), IdOf(env, v.row.series.device), v.row.series.metric)
  }

  /** What visits come back as. */
  function Carried(visits: seq<Visit>, config: set<string>, env: Env): seq<RawRow> {
    if visits == [] then []
    else
      var before, v := Carried(visits[..|visits| - 1], config, env), visits[|visits| - 1];
      if Travels(v.row, config) then before + [Restored(v, env)] else before
  }

  function ReadingOf(v: Visit): Reading
    requires v.row.value.Some?
  {
    Reading(v.row.series, v.row.time, v.row.value.value, Stands(v), v.tier)
  }

  lemma WrittenStep(sink: Sink, v: Visit, config: set<string>)
    ensures Written(sink, v, config).readings
         == sink.readings + if v.row.value.Some? && !IsConfigPoll(v, config) then [ReadingOf(v)] else []
  {
  }

  lemma CarriedStep(visits: seq<Visit>, v: Visit, config: set<string>, env: Env)
    ensures Carried(visits + [v], config, env)
         == Carried(visits, config, env)
            + if v.row.value.Some? && !IsConfigPoll(v, config) && Wants(ReadingOf(v), config)
              then [RowOf(ReadingOf(v), env)] else []
  {
    assert (visits + [v])[..|visits|] == visits;
  }

  /** The readings of the file, as far as an import wants them and turned into rows, are the visited rows. */
  lemma {:induction false} WrittenComesBack(visits: seq<Visit>, config: set<string>, env: Env)
    ensures RowsOf(Wanted(AllWritten(EMPTY_SINK, visits, config).readings, config), env) == Carried(visits, config, env)
  {
    if visits != [] {
      hide Written, Carried, Wanted, RowsOf, RowOf, Wants, IsConfigPoll, ReadingOf;
      var before, v := visits[..|visits| - 1], visits[|visits| - 1];
      assert visits == before + [v];
      WrittenComesBack(before, config, env);
      var sink := AllWritten(EMPTY_SINK, before, config);
      WrittenStep(sink, v, config);
      CarriedStep(before, v, config, env);
      if v.row.value.Some? && !IsConfigPoll(v, config) { WantedSnoc(sink.readings, ReadingOf(v), config, env); }
    }
  }

  lemma WantedSnoc(rs: seq<Reading>, r: Reading, config: set<string>, env: Env)
    ensures RowsOf(Wanted(rs + [r], config), env)
         == RowsOf(Wanted(rs, config), env) + if Wants(r, config) then [RowOf(r, env)] else []
  {
    assert (rs + [r])[..|rs|] == rs;
    if Wants(r, config) { assert (Wanted(rs, config) + [r])[..|Wanted(rs, config)|] == Wanted(rs, config); }
  }

  // ----- all rows, in whatever order the export reads them ---------------------------

  /** The plan gives the instant to this tier. */
  predicate Exported(windows: seq<Window>, tier: Tier, t: int) {
    && windows != [] && PlanSpan(windows).Holds(t)
    && ExportAnswers(windows, tier, DayPieceOf(FirstFrom(windows), LastTo(windows), t), t)
  }

  /** The rows of one relation that the plan reads, in relation order. */
  function Chosen(rows: seq<Row>, windows: seq<Window>, tier: Tier): seq<Visit> {
    if rows == [] then []
    else
      var before, row := Chosen(rows[..|rows| - 1], windows, tier), rows[|rows| - 1];
      if Exported(windows, tier, row.time) then before + [Visit(tier, row)] else before
  }

  function AllChosen(source: Source, windows: seq<Window>): seq<Visit> {
    Chosen(Rows(source, Raw), windows, Raw) + Chosen(Rows(source, Minute), windows, Minute)
    + Chosen(Rows(source, Hourly), windows, Hourly) + Chosen(Rows(source, Daily), windows, Daily)
  }

  lemma {:induction false} ChosenTimes(rows: seq<Row>, windows: seq<Window>, tier: Tier, v: Visit)
    ensures multiset(Chosen(rows, windows, tier))[v]
         == if v.tier == tier && Exported(windows, tier, v.row.time) then multiset(rows)[v.row] else 0
  {
    if rows != [] {
      hide Exported;
      ChosenTimes(rows[..|rows| - 1], windows, tier, v);
      assert rows == rows[..|rows| - 1] + [rows[|rows| - 1]];
    }
  }

  lemma VisitsAreChosen(source: Source, tiers: seq<Tier>)
    ensures multiset(ExportVisits(source, tiers)) == multiset(AllChosen(source, SourceWindows(source, tiers)))
  {
    hide PlanVisits, PlannedPieces, ChunksOf, ExportAnswers, Chosen;
    var windows := SourceWindows(source, tiers);
    forall v ensures multiset(ExportVisits(source, tiers))[v] == multiset(AllChosen(source, windows))[v] {
      ExportReadsExactly(source, tiers, v);
      ChosenTimes(Rows(source, Raw), windows, Raw, v);
      ChosenTimes(Rows(source, Minute), windows, Minute, v);
      ChosenTimes(Rows(source, Hourly), windows, Hourly, v);
      ChosenTimes(Rows(source, Daily), windows, Daily, v);
    }
  }

  lemma {:induction false} CarriedConcat(x: seq<Visit>, y: seq<Visit>, config: set<string>, env: Env)
    ensures Carried(x + y, config, env) == Carried(x, config, env) + Carried(y, config, env)
  {
    if y == [] {
      assert x + y == x;
    } else {
      hide Travels, Restored;
      assert (x + y)[..|x + y| - 1] == x + y[..|y| - 1];
      CarriedConcat(x, y[..|y| - 1], config, env);
    }
  }

  lemma CarriedWithout(visits: seq<Visit>, i: nat, config: set<string>, env: Env)
    requires i < |visits|
    ensures multiset(Carried(visits, config, env))
         == multiset(Carried(Without(visits, i), config, env)) + multiset(Carried([visits[i]], config, env))
  {
    hide Carried;
    var front, back := visits[..i], visits[i + 1..];
    assert visits == front + ([visits[i]] + back);
    CarriedConcat(front, [visits[i]] + back, config, env);
    CarriedConcat([visits[i]], back, config, env);
    CarriedConcat(front, back, config, env);
  }

  /** The order of the visits does not change which rows come back, nor how often. */
  lemma {:induction false} CarriedReordered(x: seq<Visit>, y: seq<Visit>, config: set<string>, env: Env)
    requires multiset(x) == multiset(y)
    ensures multiset(Carried(x, config, env)) == multiset(Carried(y, config, env))
    decreases |x|
  {
    if x == [] {
      assert |multiset(y)| == 0;
    } else {
      hide Carried;
      var last := |x| - 1;
      var i := SameWithout(x, y);
      assert Without(x, last) == x[..last];
      CarriedWithout(x, last, config, env);
      CarriedWithout(y, i, config, env);
      CarriedReordered(x[..last], Without(y, i), config, env);
    }
  }

  // ----- the rows that should come back -------------------------------------------------

  /** The rows of one relation that the plan assigns to its tier, as they come back. */
  function RestoredRows(rows: seq<Row>, windows: seq<Window>, tier: Tier, config: set<string>, env: Env): seq<RawRow> {
    if rows == [] then []
    else
      var before, row := RestoredRows(rows[..|rows| - 1], windows, tier, config, env), rows[|rows| - 1];
      if Travels(row, config) && Exported(windows, tier, row.time)
      then before + [Restored(Visit(tier, row), env)] else before
  }

  /** Every row with a value that is not configuration, of the tier that answers its instant. */
  function History(source: Source, windows: seq<Window>, config: set<string>, env: Env): seq<RawRow> {
    (if Raw in source then RestoredRows(source[Raw], windows, Raw, config, env) else [])
    + (if Minute in source then RestoredRows(source[Minute], windows, Minute, config, env) else [])
    + (if Hourly in source then RestoredRows(source[Hourly], windows, Hourly, config, env) else [])
    + (if Daily in source then RestoredRows(source[Daily], windows, Daily, config, env) else [])
  }

  lemma {:induction false} ChosenComesBack(rows: seq<Row>, windows: seq<Window>, tier: Tier, config: set<string>,
                                           env: Env)
    ensures Carried(Chosen(rows, windows, tier), config, env) == RestoredRows(rows, windows, tier, config, env)
  {
    if rows != [] {
      hide Exported, Travels, Restored;
      var before, row := rows[..|rows| - 1], rows[|rows| - 1];
      ChosenComesBack(before, windows, tier, config, env);
      if Exported(windows, tier, row.time) {
        var all := Chosen(rows, windows, tier);
        assert all[..|all| - 1] == Chosen(before, windows, tier);
      }
    }
  }

  lemma NothingRestored(windows: seq<Window>, tier: Tier, config: set<string>, env: Env)
    ensures RestoredRows([], windows, tier, config, env) == []
  {
  }

  lemma AllChosenComesBack(source: Source, windows: seq<Window>, config: set<string>, env: Env)
    ensures Carried(AllChosen(source, windows), config, env) == History(source, windows, config, env)
  {
    hide Carried, Chosen, RestoredRows;
    var raw, minute := Chosen(Rows(source, Raw), windows, Raw), Chosen(Rows(source, Minute), windows, Minute);
    var hourly, daily := Chosen(Rows(source, Hourly), windows, Hourly), Chosen(Rows(source, Daily), windows, Daily);
    CarriedConcat(raw, minute, config, env);
    CarriedConcat(raw + minute, hourly, config, env);
    CarriedConcat(raw + minute + hourly, daily, config, env);
    forall tier: Tier ensures RestoredRows([], windows, tier, config, env) == [] {
      NothingRestored(windows, tier, config, env);
    }
    ChosenComesBack(Rows(source, Raw), windows, Raw, config, env);
    ChosenComesBack(Rows(source, Minute), windows, Minute, config, env);
    ChosenComesBack(Rows(source, Hourly), windows, Hourly, config, env);
    ChosenComesBack(Rows(source, Daily), windows, Daily, config, env);
  }

  /** The file holds the history: its wanted readings are the rows that should come back. */
  lemma FileHoldsHistory(source: Source, tiers: seq<Tier>, config: set<string>, devices: seq<string>, env: Env)
    ensures multiset(RowsOf(Wanted(ExportOf(source, tiers, config, devices).readings, config), env))
         == multiset(History(source, SourceWindows(source, tiers), config, env))
  {
    hide ExportVisits, AllWritten, AllChosen, Carried, RowsOf, Wanted, History;
    var windows := SourceWindows(source, tiers);
    WrittenComesBack(ExportVisits(source, tiers), config, env);
    VisitsAreChosen(source, tiers);
    CarriedReordered(ExportVisits(source, tiers), AllChosen(source, windows), config, env);
    AllChosenComesBack(source, windows, config, env);
  }

  // ----- the round trip -----------------------------------------------------------------

  /**
   * A history exported, and imported into a database that has never seen the archive
   * by any number of attempts, each killed anywhere, until one finds nothing left to
   * do: the other database has gained exactly the exported history, row for row, if
   * and only if the windows of each device in the file answer its staged readings.
   */
  lemma HistoryComesBackExactly(source: Source, tiers: seq<Tier>, config: set<string>, devices: seq<string>,
                                t: Target, env: Env, kills: seq<nat>)
    requires Importable(source, tiers, config, devices, env)
    requires var a := ExportOf(source, tiers, config, devices);
             Unseen(t, a, env) && Preflight(Attempts(t, a, env, kills), a, env, false) == Skip
    ensures var a := ExportOf(source, tiers, config, devices);
            multiset(Attempts(t, a, env, kills).raw)
            == multiset(t.raw) + multiset(History(source, SourceWindows(source, tiers), config, env))
            <==> AllAnswered(a)
  {
    var a := ExportOf(source, tiers, config, devices);
    assert a.configKeys == config;
    hide ExportOf, Complete, Attempts, History, RowsOf, Wanted, AllAnswered, Consistent, Unseen, Preflight, Importable;
    SkipMeansComplete(t, a, env, kills);
    EveryReadingArrivesExactly(a, env);
    FileHoldsHistory(source, tiers, config, devices, env);
    Cancel(multiset(t.raw), multiset(Complete(a, env)),
        multiset(History(source, SourceWindows(source, tiers), config, env)));
  }

  lemma Cancel<T>(x: multiset<T>, y: multiset<T>, z: multiset<T>)
    ensures x + y == x + z <==> y == z
  {
    if x + y == x + z {
      forall e ensures y[e] == z[e] { assert (x + y)[e] == (x + z)[e]; }
    }
  }

  // ----- plans that always come back ------------------------------------------------------

  /** Besides raw the plan uses one bucket tier at most. */
  predicate PlansOnly(chunks: seq<Chunk>, tier: Tier) {
    forall i :: 0 <= i < |chunks| ==> chunks[i].tier == Raw || chunks[i].tier == tier
  }

  lemma ReadingsOfPlan(source: Source, tiers: seq<Tier>, config: set<string>, devices: seq<string>, tier: Tier)
    requires PlansOnly(ChunksOf(PlannedPieces(SourceWindows(source, tiers))), tier)
    ensures forall r :: r in ExportOf(source, tiers, config, devices).readings ==> r.tier == Raw || r.tier == tier
  {
    hide ExportVisits, AllWritten, PlannedPieces, SourceWindows, ReadingsOf;
    var visits := ExportVisits(source, tiers);
    SinkIsFaithful(visits, config);
    forall r | r in ExportOf(source, tiers, config, devices).readings ensures r.tier == Raw || r.tier == tier {
      ReadingsAreVisits(visits, config, r);
      var v :| v in visits && v.row.time == r.time && v.tier == r.tier;
      VisitIsPlanned(source, tiers, v);
    }
  }

  /** A plan that uses one bucket tier at most meets the condition of the round trip. */
  lemma OneBucketTierComesBack(source: Source, tiers: seq<Tier>, config: set<string>, devices: seq<string>, env: Env,
                               tier: Tier)
    requires Importable(source, tiers, config, devices, env) && tier != Raw
    requires PlansOnly(ChunksOf(PlannedPieces(SourceWindows(source, tiers))), tier)
    ensures AllAnswered(ExportOf(source, tiers, config, devices))
  {
    hide ExportOf, PlannedPieces, SourceWindows, AllAnswered, Consistent;
    ReadingsOfPlan(source, tiers, config, devices, tier);
    OneTierArrives(ExportOf(source, tiers, config, devices), env, tier);
  }

  lemma {:induction false} NothingStaged(rs: seq<Reading>, tier: Tier)
    requires tier != Raw && forall i :: 0 <= i < |rs| ==> rs[i].tier == Raw
    ensures OfTier(rs, tier) == [] && OfTier(rs, Raw) == rs
  {
    if rs != [] {
      assert forall i :: 0 <= i < |rs[1..]| ==> rs[1..][i] == rs[i + 1];
      NothingStaged(rs[1..], tier);
    }
  }

  lemma {:induction false} NoStageWindows(rs: seq<Reading>, slug: string, tiers: seq<Tier>)
    requires Raw !in tiers && forall i :: 0 <= i < |rs| ==> rs[i].tier == Raw
    ensures StageWindows(rs, slug, tiers) == []
  {
    if tiers != [] {
      NothingStaged(rs, tiers[0]);
      NoStageWindows(rs, slug, tiers[1..]);
    }
  }

  lemma {:induction false} NoUnits(a: Archive, devices: seq<string>)
    requires forall i :: 0 <= i < |a.readings| ==> a.readings[i].tier == Raw
    ensures Units(a, devices) == []
  {
    if devices != [] {
      NoStageWindows(a.readings, devices[0], StagedTiers(a));
      NoUnits(a, devices[1..]);
    }
  }

  lemma RawArchiveRows(t: Target, a: Archive, env: Env)
    requires forall i :: 0 <= i < |a.readings| ==> a.readings[i].tier == Raw
    ensures Effective(t, a, env) == RowsOf(a.readings, env)
  {
    NoUnits(a, a.devices);
    NothingStaged(a.readings, Minute);
    assert Emitted([], t.progress, a, env) == [];
  }

  /** When raw answers throughout, one attempt that comes to its end is enough, whatever the target remembers. */
  lemma RawHistoryComesBack(source: Source, tiers: seq<Tier>, config: set<string>, devices: seq<string>,
                            t: Target, env: Env, n: nat)
    requires Importable(source, tiers, config, devices, env)
    requires PlansOnly(ChunksOf(PlannedPieces(SourceWindows(source, tiers))), Raw)
    requires var a := ExportOf(source, tiers, config, devices);
             Preflight(t, a, env, false) == Proceed && n >= |Program(a, env)|
    ensures multiset(Attempt(t, ExportOf(source, tiers, config, devices), env, n).raw)
         == multiset(t.raw) + multiset(History(source, SourceWindows(source, tiers), config, env))
  {
    var a := ExportOf(source, tiers, config, devices);
    assert a.configKeys == config;
    ReadingsOfPlan(source, tiers, config, devices, Raw);
    hide ExportOf, Attempt, History, RowsOf, Wanted, Consistent, Preflight, Importable, Program, Effective, PlansOnly;
    forall i | 0 <= i < |a.readings| ensures a.readings[i].tier == Raw { assert a.readings[i] in a.readings; }
    RawIsWanted(a.readings, config);
    RawArchiveRows(t, a, env);
    FinishedImportIsFinal(t, a, env, n, []);
    FileHoldsHistory(source, tiers, config, devices, env);
  }

  lemma {:induction false} RawIsWanted(rs: seq<Reading>, config: set<string>)
    requires forall i :: 0 <= i < |rs| ==> rs[i].tier == Raw
    ensures Wanted(rs, config) == rs
  {
    if rs != [] {
      assert forall i :: 0 <= i < |rs| - 1 ==> rs[..|rs| - 1][i] == rs[i];
      RawIsWanted(rs[..|rs| - 1], config);
    }
  }
}
