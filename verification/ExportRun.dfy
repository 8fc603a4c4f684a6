/**
 * The export's read loop in packages/db/src/archive-export.ts: `readWindow`,
 * `writeReadings` and `writeRow`. A relation is the sequence of its rows in time
 * order.
 */
module ExportRun {
  import opened Wrappers
  import opened Spans
  import opened Replay
  import opened ExportPlan
  import opened ChangeFilter

  datatype Row = Row(series: Series, time: int, value: Option<real>, durMs: Option<int>)

  type Source = map<Tier, seq<Row>>

  function Rows(source: Source, tier: Tier): seq<Row> { if tier in source then source[tier] else [] }

  datatype Visit = Visit(tier: Tier, row: Row)

  datatype Reading = Reading(series: Series, time: int, value: real, durMs: Option<int>, tier: Tier)

  // ----- which rows are read -----------------------------------------------

  /** The distinct series of a relation. */
  function SeriesIn(rows: seq<Row>): seq<Series> {
    if rows == [] then []
    else
      var before, s := SeriesIn(rows[..|rows| - 1]), rows[|rows| - 1].series;
      if s in before then before else before + [s]
  }

  /** One query: a series over a half-open window. */
  function SeriesVisits(tier: Tier, rows: seq<Row>, s: Series, span: Span): seq<Visit> {
    if rows == [] then []
    else
      var before, row := SeriesVisits(tier, rows[..|rows| - 1], s, span), rows[|rows| - 1];
      if row.series == s && span.Holds(row.time) then before + [Visit(tier, row)] else before
  }

  function WindowVisits(tier: Tier, rows: seq<Row>, all: seq<Series>, span: Span): seq<Visit> {
    if all == [] then []
    else WindowVisits(tier, rows, all[..|all| - 1], span) + SeriesVisits(tier, rows, all[|all| - 1], span)
  }

  function WindowsVisits(tier: Tier, rows: seq<Row>, windows: seq<Span>): seq<Visit> {
    if windows == [] then []
    else WindowVisits(tier, rows, SeriesIn(rows), windows[0]) + WindowsVisits(tier, rows, windows[1..])
  }

  function ChunkVisits(source: Source, chunk: Chunk): seq<Visit> {
    WindowsVisits(chunk.tier, Rows(source, chunk.tier),
                  SubWindows(chunk.span.start, chunk.span.end, WindowDays(chunk.tier) * DAY_MS))
  }

  function PlanVisits(source: Source, chunks: seq<Chunk>): seq<Visit> {
    if chunks == [] then [] else ChunkVisits(source, chunks[0]) + PlanVisits(source, chunks[1..])
  }

  // ----- what becomes of a row ---------------------------------------------

  datatype Sink = Sink(
    readings: seq<Reading>, configLog: seq<Poll>,
    streams: map<Tier, nat>, configCount: nat,
    devices: set<string>, metrics: set<string>, last: map<string, real>)

  const EMPTY_SINK := Sink([], [], map[Raw := 0, Minute := 0, Hourly := 0, Daily := 0], 0, {}, {}, map[])

  function Count(streams: map<Tier, nat>, tier: Tier): nat { if tier in streams then streams[tier] else 0 }

  function DurOf(v: Visit): Option<int> { if v.tier == Raw then v.row.durMs else Some(BucketWidthMs(v.tier)) }

  /** What `writeRow` makes of one row. */
  function Written(sink: Sink, v: Visit, config: set<string>): Sink {
    match v.row.value
    case None => sink
    case Some(value) =>
      var s := v.row.series;
      var named := sink.(devices := sink.devices + {s.device}, metrics := sink.metrics + {s.metric});
      if s.metric in config && v.tier == Raw then
        var key := SeriesKey(s);
        if key in sink.last && sink.last[key] == value then named
        else named.(last := sink.last[key := value],
                    configLog := sink.configLog + [Poll(s, v.row.time, value)],
                    configCount := sink.configCount + 1)
      else
        named.(readings := sink.readings + [Reading(s, v.row.time, value, DurOf(v), v.tier)],
               streams := sink.streams[v.tier := Count(sink.streams, v.tier) + 1])
  }

  function AllWritten(sink: Sink, visits: seq<Visit>, config: set<string>): Sink {
    if visits == [] then sink
    else Written(AllWritten(sink, visits[..|visits| - 1], config), visits[|visits| - 1], config)
  }

  // ----- the loops ---------------------------------------------------------

  class ExportSink {
    var readings: seq<Reading>
    var configLog: seq<Poll>
    var streams: map<Tier, nat>
    var configCount: nat
    var devices: set<string>
    var metrics: set<string>
    const filter: Filter

    function State(): Sink
      reads this, filter
    {
      Sink(readings, configLog, streams, configCount, devices, metrics, filter.last)
    }

    constructor ()
      ensures State() == EMPTY_SINK && fresh(filter)
    {
      readings, configLog, configCount, devices, metrics := [], [], 0, {}, {};
      streams := map[Raw := 0, Minute := 0, Hourly := 0, Daily := 0];
      filter := new Filter();
    }

    /** True when a reading was written. */
    method WriteRow(v: Visit, config: set<string>) returns (reading: bool)
      modifies this, filter
      ensures State() == Written(old(State()), v, config)
      ensures reading <==> v.row.value.Some? && !(v.row.series.metric in config && v.tier == Raw)
    {
      if v.row.value.None? { return false; }
      var s, value := v.row.series, v.row.value.value;
      devices := devices + {s.device};
      metrics := metrics + {s.metric};
      if s.metric in config && v.tier == Raw {
        var changed := filter.Changed(SeriesKey(s), value);
        if !changed { return false; }
        configLog := configLog + [Poll(s, v.row.time, value)];
        configCount := configCount + 1;
        return false;
      }
      readings := readings + [Reading(s, v.row.time, value, DurOf(v), v.tier)];
      streams := streams[v.tier := Count(streams, v.tier) + 1];
      reading := true;
    }

    method WriteSeries(tier: Tier, rows: seq<Row>, s: Series, span: Span, config: set<string>)
      modifies this, filter
      ensures State() == AllWritten(old(State()), SeriesVisits(tier, rows, s, span), config)
    {
      for i := 0 to |rows|
        invariant State() == AllWritten(old(State()), SeriesVisits(tier, rows[..i], s, span), config)
      {
        assert rows[..i + 1][..i] == rows[..i];
        if rows[i].series == s && span.Holds(rows[i].time) {
          var v := Visit(tier, rows[i]);
          ghost var before := SeriesVisits(tier, rows[..i], s, span);
          assert (before + [v])[..|before|] == before;
          var _ := WriteRow(v, config);
        }
      }
      assert rows[..|rows|] == rows;
    }

    method WriteWindow(tier: Tier, rows: seq<Row>, all: seq<Series>, span: Span, config: set<string>)
      modifies this, filter
      ensures State() == AllWritten(old(State()), WindowVisits(tier, rows, all, span), config)
    {
      for i := 0 to |all|
        invariant State() == AllWritten(old(State()), WindowVisits(tier, rows, all[..i], span), config)
      {
        assert all[..i + 1][..i] == all[..i];
        WrittenConcat(old(State()), WindowVisits(tier, rows, all[..i], span), SeriesVisits(tier, rows, all[i], span),
            config);
        WriteSeries(tier, rows, all[i], span, config);
      }
      assert all[..|all|] == all;
    }

    method WriteChunk(source: Source, chunk: Chunk, config: set<string>)
      modifies this, filter
      ensures State() == AllWritten(old(State()), ChunkVisits(source, chunk), config)
    {
      var rows := Rows(source, chunk.tier);
      var all := SeriesIn(rows);
      var windows := WindowsOf(chunk.span, WindowDays(chunk.tier));
      for i := 0 to |windows|
        invariant AllWritten(State(), WindowsVisits(chunk.tier, rows, windows[i..]), config)
               == AllWritten(old(State()), ChunkVisits(source, chunk), config)
      {
        assert windows[i..][1..] == windows[i + 1..];
        WrittenConcat(State(), WindowVisits(chunk.tier, rows, all, windows[i]),
                      WindowsVisits(chunk.tier, rows, windows[i + 1..]), config);
        WriteWindow(chunk.tier, rows, all, windows[i], config);
      }
    }

    method WriteReadings(source: Source, chunks: seq<Chunk>, config: set<string>)
      modifies this, filter
      ensures State() == AllWritten(old(State()), PlanVisits(source, chunks), config)
    {
      for i := 0 to |chunks|
        invariant AllWritten(State(), PlanVisits(source, chunks[i..]), config)
               == AllWritten(old(State()), PlanVisits(source, chunks), config)
      {
        assert chunks[i..][1..] == chunks[i + 1..];
        WrittenConcat(State(), ChunkVisits(source, chunks[i]), PlanVisits(source, chunks[i + 1..]), config);
        WriteChunk(source, chunks[i], config);
      }
    }
  }

  lemma {:induction false} WrittenConcat(sink: Sink, a: seq<Visit>, b: seq<Visit>, config: set<string>)
    ensures AllWritten(sink, a + b, config) == AllWritten(AllWritten(sink, a, config), b, config)
  {
    if b == [] {
      assert a + b == a;
    } else {
      assert (a + b)[..|a + b| - 1] == a + b[..|b| - 1];
      WrittenConcat(sink, a, b[..|b| - 1], config);
    }
  }

  // ----- every row exactly once --------------------------------------------

  lemma {:induction false} SeriesInIsComplete(rows: seq<Row>)
    ensures forall i, j :: 0 <= i < j < |SeriesIn(rows)| ==> SeriesIn(rows)[i] != SeriesIn(rows)[j]
    ensures forall row :: row in rows ==> row.series in SeriesIn(rows)
  {
    if rows != [] {
      SeriesInIsComplete(rows[..|rows| - 1]);
      assert rows == rows[..|rows| - 1] + [rows[|rows| - 1]];
    }
  }

  lemma {:induction false} SeriesVisitsCount(tier: Tier, rows: seq<Row>, s: Series, span: Span, v: Visit)
    ensures multiset(SeriesVisits(tier, rows, s, span))[v]
         == if v.tier == tier && v.row.series == s && span.Holds(v.row.time) then multiset(rows)[v.row] else 0
  {
    if rows != [] {
      SeriesVisitsCount(tier, rows[..|rows| - 1], s, span, v);
      assert rows == rows[..|rows| - 1] + [rows[|rows| - 1]];
    }
  }

  lemma {:induction false} WindowVisitsCount(tier: Tier, rows: seq<Row>, all: seq<Series>, span: Span, v: Visit)
    requires forall i, j :: 0 <= i < j < |all| ==> all[i] != all[j]
    ensures multiset(WindowVisits(tier, rows, all, span))[v]
         == if v.tier == tier && v.row.series in all && span.Holds(v.row.time) then multiset(rows)[v.row] else 0
  {
    if all != [] {
      WindowVisitsCount(tier, rows, all[..|all| - 1], span, v);
      SeriesVisitsCount(tier, rows, all[|all| - 1], span, v);
      assert all == all[..|all| - 1] + [all[|all| - 1]];
    }
  }

  lemma Added(all: int, others: int, m: int, hits: int, rest: int, hit: bool)
    requires all == others + (if hit then m else 0) && others == m * rest && hits == (if hit then 1 else 0) + rest
    ensures all == m * hits
  {
  }

  lemma WindowsVisitsStep(tier: Tier, rows: seq<Row>, windows: seq<Span>, v: Visit)
    requires windows != []
    ensures multiset(WindowsVisits(tier, rows, windows))[v]
         == multiset(WindowsVisits(tier, rows, windows[1..]))[v]
            + if v.tier == tier && windows[0].Holds(v.row.time) then multiset(rows)[v.row] else 0
  {
    hide WindowVisits, SeriesIn;
    SeriesInIsComplete(rows);
    WindowVisitsCount(tier, rows, SeriesIn(rows), windows[0], v);
  }

  lemma {:induction false} WindowsVisitsCount(tier: Tier, rows: seq<Row>, windows: seq<Span>, v: Visit)
    ensures multiset(WindowsVisits(tier, rows, windows))[v]
         == if v.tier == tier then multiset(rows)[v.row] * Hits(windows, v.row.time) else 0
  {
    if windows != [] {
      hide WindowsVisits;
      WindowsVisitsStep(tier, rows, windows, v);
      WindowsVisitsCount(tier, rows, windows[1..], v);
      if v.tier == tier {
        Added(multiset(WindowsVisits(tier, rows, windows))[v], multiset(WindowsVisits(tier, rows, windows[1..]))[v],
              multiset(rows)[v.row], Hits(windows, v.row.time), Hits(windows[1..], v.row.time),
              windows[0].Holds(v.row.time));
      }
    }
  }

  lemma ChunkVisitsCount(source: Source, chunk: Chunk, v: Visit)
    ensures multiset(ChunkVisits(source, chunk))[v]
         == if v.tier == chunk.tier && chunk.span.Holds(v.row.time) then multiset(Rows(source, v.tier))[v.row] else 0
  {
    var windows := SubWindows(chunk.span.start, chunk.span.end, WindowDays(chunk.tier) * DAY_MS);
    WindowsVisitsCount(chunk.tier, Rows(source, chunk.tier), windows, v);
    if chunk.span.start <= chunk.span.end {
      SubWindowsTile(chunk.span.start, chunk.span.end, WindowDays(chunk.tier) * DAY_MS);
      TilesHitOnce(windows, chunk.span.start, chunk.span.end, v.row.time);
    }
  }

  lemma PlanVisitsStep(source: Source, chunks: seq<Chunk>, v: Visit)
    requires chunks != []
    ensures multiset(PlanVisits(source, chunks))[v]
         == multiset(PlanVisits(source, chunks[1..]))[v]
            + if v.tier == chunks[0].tier && chunks[0].span.Holds(v.row.time)
              then multiset(Rows(source, v.tier))[v.row] else 0
  {
    hide ChunkVisits;
    ChunkVisitsCount(source, chunks[0], v);
  }

  lemma FirstHit(chunks: seq<Chunk>, tier: Tier, t: int)
    requires chunks != []
    ensures TierHits(chunks, tier, t)
         == (if tier == chunks[0].tier && chunks[0].span.Holds(t) then 1 else 0) + TierHits(chunks[1..], tier, t)
  {
  }

  lemma {:induction false} PlanVisitsCount(source: Source, chunks: seq<Chunk>, v: Visit)
    ensures multiset(PlanVisits(source, chunks))[v]
         == multiset(Rows(source, v.tier))[v.row] * TierHits(chunks, v.tier, v.row.time)
  {
    if chunks != [] {
      hide *;
      PlanVisitsStep(source, chunks, v);
      PlanVisitsCount(source, chunks[1..], v);
      FirstHit(chunks, v.tier, v.row.time);
      Added(multiset(PlanVisits(source, chunks))[v], multiset(PlanVisits(source, chunks[1..]))[v],
            multiset(Rows(source, v.tier))[v.row], TierHits(chunks, v.tier, v.row.time),
            TierHits(chunks[1..], v.tier, v.row.time),
            v.tier == chunks[0].tier && chunks[0].span.Holds(v.row.time));
    }
  }

  /**
   * The export reads each row of a relation exactly once when the row's instant
   * lies in a chunk given to that tier, and never otherwise.
   */
  lemma EachRowVisitedOnce(source: Source, windows: seq<Window>, from: int, end: int, v: Visit)
    requires from <= end
    ensures var chunks := ChunksOf(ExportPieces(windows, from, end));
            multiset(PlanVisits(source, chunks))[v]
            == if v.tier in source && TierHits(chunks, v.tier, v.row.time) > 0
               then multiset(source[v.tier])[v.row] else 0
  {
    hide PlanVisits, ExportPieces;
    EachInstantPlannedOnce(windows, from, end, v.tier, v.row.time);
    PlanVisitsCount(source, ChunksOf(ExportPieces(windows, from, end)), v);
  }

  // ----- the source windows ------------------------------------------------

  function MinTime(rows: seq<Row>): int
    requires rows != []
  {
    if |rows| == 1 then rows[0].time else Min(rows[0].time, MinTime(rows[1..]))
  }

  function MaxTime(rows: seq<Row>): int
    requires rows != []
  {
    if |rows| == 1 then rows[0].time else Max(rows[0].time, MaxTime(rows[1..]))
  }

  /** A raw row is an instant, a bucket covers its width; either way the end is exclusive. */
  function ReadWindow(tier: Tier, rows: seq<Row>): Option<Window> {
    if rows == [] then None
    else Some(Window(tier, MinTime(rows), MaxTime(rows) + if tier == Raw then 1 else BucketWidthMs(tier)))
  }

  lemma {:induction false} TimesInRange(rows: seq<Row>, row: Row)
    requires row in rows
    ensures MinTime(rows) <= row.time <= MaxTime(rows)
  {
    if row in rows[1..] { TimesInRange(rows[1..], row); }
  }

  /** The windows of the tiers that have rows. */
  function SourceWindows(source: Source, tiers: seq<Tier>): seq<Window> {
    if tiers == [] then []
    else
      var before, tier := SourceWindows(source, tiers[..|tiers| - 1]), tiers[|tiers| - 1];
      var w := ReadWindow(tier, Rows(source, tier));
      if w.Some? then before + [w.value] else before
  }

  method ReadSourceWindows(source: Source, tiers: seq<Tier>) returns (windows: seq<Window>)
    ensures windows == SourceWindows(source, tiers)
  {
    windows := [];
    for i := 0 to |tiers|
      invariant windows == SourceWindows(source, tiers[..i])
    {
      assert tiers[..i + 1][..i] == tiers[..i];
      var w := ReadWindow(tiers[i], Rows(source, tiers[i]));
      if w.Some? { windows := windows + [w.value]; }
    }
    assert tiers[..|tiers|] == tiers;
  }

  lemma {:induction false} WindowIsRead(source: Source, tiers: seq<Tier>, tier: Tier)
    requires tier in tiers && Rows(source, tier) != []
    ensures ReadWindow(tier, Rows(source, tier)).value in SourceWindows(source, tiers)
  {
    if tier != tiers[|tiers| - 1] { WindowIsRead(source, tiers[..|tiers| - 1], tier); }
  }

  /** The earliest and the latest time are those of rows. */
  lemma {:induction false} TimesAttained(rows: seq<Row>)
    requires rows != []
    ensures HasTime(rows, MinTime(rows)) && HasTime(rows, MaxTime(rows))
  {
    if |rows| == 1 {
      assert rows[0].time == MinTime(rows);
    } else {
      TimesAttained(rows[1..]);
      forall t | HasTime(rows[1..], t) || t == rows[0].time ensures HasTime(rows, t) {
        assert rows == rows[..1] + rows[1..];
      }
    }
  }

  predicate HasTime(rows: seq<Row>, t: int) { exists row :: row in rows && row.time == t }

  /** A window from the first row to just past what the last one covers, and no row outside. */
  predicate Frames(w: Window, rows: seq<Row>) {
    var covers := match w.tier case Raw => 1 case Minute => 60_000 case Hourly => 3_600_000 case Daily => 86_400_000;
    && HasTime(rows, w.from) && HasTime(rows, w.to - covers)
    && (forall row :: row in rows ==> w.from <= row.time <= w.to - covers)
  }

  /** One window for each tier that is read and has rows, and it frames them. */
  lemma {:induction false} WindowsFrame(source: Source, tiers: seq<Tier>, w: Window)
    ensures w in SourceWindows(source, tiers) <==> w.tier in tiers && w.tier in source && Frames(w, source[w.tier])
  {
    if tiers != [] {
      var before, tier := tiers[..|tiers| - 1], tiers[|tiers| - 1];
      WindowsFrame(source, before, w);
      ReadWindowFrames(w, Rows(source, w.tier));
      assert tiers == before + [tier];
    }
  }

  lemma ReadWindowFrames(w: Window, rows: seq<Row>)
    ensures ReadWindow(w.tier, rows) == Some(w) <==> Frames(w, rows)
  {
    if rows != [] {
      TimesAttained(rows);
      forall row | row in rows ensures MinTime(rows) <= row.time <= MaxTime(rows) { TimesInRange(rows, row); }
    }
  }

  lemma {:induction false} SourceWindowsForward(source: Source, tiers: seq<Tier>)
    ensures forall w :: w in SourceWindows(source, tiers) ==> w.from <= w.to
  {
    if tiers != [] {
      SourceWindowsForward(source, tiers[..|tiers| - 1]);
      var rows := Rows(source, tiers[|tiers| - 1]);
      if rows != [] { TimesInRange(rows, rows[0]); }
    }
  }

  /** The span of the plan. */
  function PlanSpan(windows: seq<Window>): Span
    requires windows != []
  {
    Span(FirstFrom(windows), LastTo(windows))
  }

  lemma PlanSpanForward(source: Source, tiers: seq<Tier>)
    ensures var windows := SourceWindows(source, tiers); windows != [] ==> FirstFrom(windows) <= LastTo(windows)
  {
    var windows := SourceWindows(source, tiers);
    SourceWindowsForward(source, tiers);
    forall i | 0 <= i < |windows| ensures windows[i].from <= windows[i].to { assert windows[i] in windows; }
    if windows != [] { WindowsNotEmpty(windows); }
  }

  /** No row falls out of the planned span, the last one of a relation included. */
  lemma EveryRowIsPlanned(source: Source, tiers: seq<Tier>, tier: Tier, row: Row)
    requires tier in tiers && tier in source && row in source[tier]
    ensures var windows := SourceWindows(source, tiers);
            windows != [] && PlanSpan(windows).Holds(row.time)
  {
    var windows, w := SourceWindows(source, tiers), ReadWindow(tier, Rows(source, tier)).value;
    WindowIsRead(source, tiers, tier);
    WithinAll(windows, w);
    TimesInRange(Rows(source, tier), row);
  }

  /**
   * A whole export reads a row of a relation as often as the relation stores it when
   * the row's tier answers its instant, and never otherwise.
   */
  lemma ExportReadsExactly(source: Source, tiers: seq<Tier>, v: Visit)
    ensures var windows := SourceWindows(source, tiers);
            multiset(PlanVisits(source, ChunksOf(PlannedPieces(windows))))[v]
            == if && v.tier in source && windows != [] && PlanSpan(windows).Holds(v.row.time)
                  && ExportAnswers(windows, v.tier,
                                   DayPieceOf(FirstFrom(windows), LastTo(windows), v.row.time), v.row.time)
               then multiset(source[v.tier])[v.row] else 0
  {
    hide PlanVisits, ExportPieces, ExportAnswers, ChunksOf;
    var windows, t := SourceWindows(source, tiers), v.row.time;
    if windows == [] {
      NothingPlanned(source);
    } else {
      var from, end := FirstFrom(windows), LastTo(windows);
      PlanSpanForward(source, tiers);
      EachRowVisitedOnce(source, windows, from, end, v);
      EachInstantPlannedOnce(windows, from, end, v.tier, t);
      if from <= t < end { ExportAnswersExactly(windows, from, end, v.tier, t); }
    }
  }

  lemma NothingPlanned(source: Source)
    ensures PlanVisits(source, ChunksOf([])) == []
  {
  }

  // ----- what the sink holds -----------------------------------------------

  predicate IsConfigPoll(v: Visit, config: set<string>) {
    v.row.value.Some? && v.row.series.metric in config && v.tier == Raw
  }

  function PollsOf(visits: seq<Visit>, config: set<string>): seq<Poll> {
    if visits == [] then []
    else
      var before, v := PollsOf(visits[..|visits| - 1], config), visits[|visits| - 1];
      if IsConfigPoll(v, config) then before + [Poll(v.row.series, v.row.time, v.row.value.value)] else before
  }

  /** How long a stored row stands for: a raw row as long as it says, a bucket a minute, an hour or a day. */
  function Stands(v: Visit): Option<int> {
    match v.tier
    case Raw => v.row.durMs
    case Minute => Some(60_000)
    case Hourly => Some(3_600_000)
    case Daily => Some(86_400_000)
  }

  function ReadingsOf(visits: seq<Visit>, config: set<string>): seq<Reading> {
    if visits == [] then []
    else
      var before, v := ReadingsOf(visits[..|visits| - 1], config), visits[|visits| - 1];
      if v.row.value.Some? && !IsConfigPoll(v, config)
      then before + [Reading(v.row.series, v.row.time, v.row.value.value, Stands(v), v.tier)] else before
  }

  function TierCount(readings: seq<Reading>, tier: Tier): nat {
    if readings == [] then 0
    else TierCount(readings[..|readings| - 1], tier) + if readings[|readings| - 1].tier == tier then 1 else 0
  }

  /**
   * The manifest tells the truth about the file: the readings are the visited
   * values in order, configuration is their collapsed log, each stream count is the
   * number of its readings, and every device and metric in the file is named.
   */
  ghost predicate Faithful(sink: Sink, visits: seq<Visit>, config: set<string>) {
    && sink.readings == ReadingsOf(visits, config)
    && sink.configLog == Logged(PollsOf(visits, config))
    && Remembers(sink.last, PollsOf(visits, config))
    && (forall tier: Tier :: Count(sink.streams, tier) == TierCount(sink.readings, tier))
    && sink.configCount == |sink.configLog|
    && (forall r :: r in sink.readings ==> r.series.device in sink.devices && r.series.metric in sink.metrics)
    && (forall p :: p in sink.configLog ==> p.series.device in sink.devices && p.series.metric in sink.metrics)
  }

  lemma {:induction false} SinkIsFaithful(visits: seq<Visit>, config: set<string>)
    ensures Faithful(AllWritten(EMPTY_SINK, visits, config), visits, config)
  {
    if visits != [] {
      var v, before := visits[|visits| - 1], visits[..|visits| - 1];
      SinkIsFaithful(before, config);
      WrittenIsFaithful(AllWritten(EMPTY_SINK, before, config), before, v, config);
      assert before + [v] == visits;
    }
  }

  lemma WrittenIsFaithful(sink: Sink, before: seq<Visit>, v: Visit, config: set<string>)
    requires Faithful(sink, before, config)
    ensures Faithful(Written(sink, v, config), before + [v], config)
  {
    assert (before + [v])[..|before|] == before;
    if IsConfigPoll(v, config) {
      var polls := PollsOf(before, config);
      assert PollsOf(before + [v], config)[..|polls|] == polls;
    } else if v.row.value.Some? {
      assert ReadingsOf(before + [v], config)[..|sink.readings|] == sink.readings;
    }
  }

  // ----- the order rows are read in ----------------------------------------

  predicate SortedRows(rows: seq<Row>) {
    forall i, j :: 0 <= i < j < |rows| ==> rows[i].time <= rows[j].time
  }

  predicate Within(visits: seq<Visit>, from: int, to: int) {
    forall v :: v in visits ==> from <= v.row.time < to
  }

  predicate SeriesOrdered(visits: seq<Visit>) {
    forall i, j :: 0 <= i < j < |visits| && visits[i].row.series == visits[j].row.series ==>
      visits[i].row.time <= visits[j].row.time
  }

  lemma {:induction false} SeriesVisitsInOrder(tier: Tier, rows: seq<Row>, s: Series, span: Span)
    requires SortedRows(rows)
    ensures var vs := SeriesVisits(tier, rows, s, span);
            && SeriesOrdered(vs) && Within(vs, span.start, span.end)
            && forall v :: v in vs ==> v.row.series == s && v.row in rows
  {
    if rows != [] {
      SeriesVisitsInOrder(tier, rows[..|rows| - 1], s, span);
    }
  }

  lemma {:induction false} WindowVisitsInOrder(tier: Tier, rows: seq<Row>, all: seq<Series>, span: Span)
    requires SortedRows(rows) && forall i, j :: 0 <= i < j < |all| ==> all[i] != all[j]
    ensures var vs := WindowVisits(tier, rows, all, span);
            SeriesOrdered(vs) && Within(vs, span.start, span.end) && forall v :: v in vs ==> v.row.series in all
  {
    if all != [] {
      WindowVisitsInOrder(tier, rows, all[..|all| - 1], span);
      SeriesVisitsInOrder(tier, rows, all[|all| - 1], span);
    }
  }

  lemma OrderedConcat(a: seq<Visit>, b: seq<Visit>, from: int, mid: int, to: int)
    requires SeriesOrdered(a) && Within(a, from, mid) && SeriesOrdered(b) && Within(b, mid, to) && from <= mid <= to
    ensures SeriesOrdered(a + b) && Within(a + b, from, to)
  {
    forall i, j | 0 <= i < j < |a + b| && (a + b)[i].row.series == (a + b)[j].row.series
      ensures (a + b)[i].row.time <= (a + b)[j].row.time
    {
      assert i < |a| ==> (a + b)[i] in a;
      assert j >= |a| ==> (a + b)[j] in b;
    }
  }

  lemma {:induction false} WindowsVisitsInOrder(tier: Tier, rows: seq<Row>, windows: seq<Span>, from: int, to: int)
    requires SortedRows(rows) && Tiles(windows, from, to)
    ensures SeriesOrdered(WindowsVisits(tier, rows, windows)) && Within(WindowsVisits(tier, rows, windows), from, to)
  {
    if windows != [] {
      SeriesInIsComplete(rows);
      WindowVisitsInOrder(tier, rows, SeriesIn(rows), windows[0]);
      WindowsVisitsInOrder(tier, rows, windows[1..], windows[0].end, to);
      TilesGoForward(windows[1..], windows[0].end, to);
      OrderedConcat(WindowVisits(tier, rows, SeriesIn(rows), windows[0]), WindowsVisits(tier, rows, windows[1..]),
                    from, windows[0].end, to);
    }
  }

  /** Reading chunk by chunk, window by window and series by series still meets every series in time order. */
  lemma {:induction false} PlanVisitsInOrder(source: Source, pieces: seq<Piece>, from: int, to: int)
    requires Tiles(SpansOf(pieces), from, to)
    requires forall tier: Tier :: SortedRows(Rows(source, tier))
    ensures SeriesOrdered(PlanVisits(source, ChunksOf(pieces)))
         && Within(PlanVisits(source, ChunksOf(pieces)), from, to)
  {
    if pieces != [] {
      var span, later := pieces[0].span, PlanVisits(source, ChunksOf(pieces[1..]));
      assert SpansOf(pieces)[1..] == SpansOf(pieces[1..]);
      PlanVisitsInOrder(source, pieces[1..], span.end, to);
      TilesGoForward(SpansOf(pieces[1..]), span.end, to);
      if pieces[0].Answered? {
        var tier := pieces[0].tier;
        var chunk := Chunk(tier, span);
        SubWindowsTile(span.start, span.end, WindowDays(tier) * DAY_MS);
        WindowsVisitsInOrder(tier, Rows(source, tier), SubWindows(span.start, span.end, WindowDays(tier) * DAY_MS),
                             span.start, span.end);
        OrderedConcat(ChunkVisits(source, chunk), later, span.start, span.end, to);
        assert ChunksOf(pieces)[1..] == ChunksOf(pieces[1..]);
      } else {
        OrderedConcat([], later, span.start, span.end, to);
        assert [] + later == later;
      }
    }
  }

  lemma {:induction false} PollsInOrder(visits: seq<Visit>, config: set<string>)
    requires SeriesOrdered(visits)
    ensures InOrder(PollsOf(visits, config))
    ensures forall p :: p in PollsOf(visits, config) ==>
              exists v :: v in visits && v.row.series == p.series && v.row.time == p.time
  {
    if visits != [] {
      var before, v := visits[..|visits| - 1], visits[|visits| - 1];
      PollsInOrder(before, config);
      assert forall w :: w in before ==> w in visits;
      var polls := PollsOf(before, config);
      forall i | 0 <= i < |polls| && polls[i].series == v.row.series
        ensures polls[i].time <= v.row.time
      {
        assert polls[i] in polls;
        var w :| w in before && w.row.series == polls[i].series && w.row.time == polls[i].time;
      }
    }
  }

  /**
   * A whole export, from planned windows to collapsed log: with device names free
   * of spaces, the configuration log has the value of every configuration register
   * at every instant as the polls that were read had it.
   */
  lemma ExportKeepsConfigHistory(source: Source, windows: seq<Window>, from: int, end: int,
                                 config: set<string>, all: set<Series>, s: Series, t: int)
    requires from <= end && forall tier: Tier :: SortedRows(Rows(source, tier))
    requires forall x :: x in all ==> ' ' !in x.device
    requires Over(PollsOf(PlanVisits(source, ChunksOf(ExportPieces(windows, from, end))), config), all)
    ensures var visits := PlanVisits(source, ChunksOf(ExportPieces(windows, from, end)));
            ValueAt(AllWritten(EMPTY_SINK, visits, config).configLog, s, t) == ValueAt(PollsOf(visits, config), s, t)
  {
    var visits := PlanVisits(source, ChunksOf(ExportPieces(windows, from, end)));
    ExportTiles(windows, from, end);
    PlanVisitsInOrder(source, ExportPieces(windows, from, end), from, end);
    PollsInOrder(visits, config);
    SinkIsFaithful(visits, config);
    SpaceFreeDevicesSuffice(all);
    StepsPreserved(PollsOf(visits, config), all, s, t);
  }
}
