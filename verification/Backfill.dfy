/**
 * The in-place upgrade's backfill, as a protocol that can be killed at any
 * statement: `runBackfill`, `replayEverySource` and `refreshTiers` of
 * packages/db/src/backfill-run.ts over `runReplay` of packages/db/src/replay-run.ts.
 * Carry the retained raw window, replay every legacy source, refresh the tiers.
 */
module Backfill {
  import opened Wrappers
  import opened Database
  import opened Spans
  import opened Replay
  import RefreshWindows

  // ----- the migration and the database --------------------------------------

  /** A row of a legacy relation, under the legacy source id it was recorded with. */
  datatype Bucket = Bucket(time: int, id: string, metric: string, value: Option<real>)

  datatype Stage = NoMigration | Cutover | Carried | Deferred | Backfilled | Verified | Dropped

  /**
   * What stays fixed over the attempts: the migration record, the caller's input,
   * and the legacy relations in time order. `ids` are the source ids they hold,
   * oldest first.
   */
  datatype Migration = Migration(
    sourceId: Option<string>, rawFrom: Option<int>, replayTo: Option<int>,
    device: int, config: set<string>, rawDurMs: Option<int>, chunkMs: int,
    legacyRaw: seq<Bucket>, tiers: map<Tier, seq<Bucket>>, ids: seq<string>)

  datatype Db = Db(raw: seq<RawRow>, log: seq<LogRow>, done: set<Progress>, stage: Stage, refreshed: set<Refresh>)

  // ----- one chunk ------------------------------------------------------------

  /** One day-chunk of one replay: its watermark source, the relation it reads, and the duration it writes. */
  datatype Unit = Unit(source: string, id: string, rows: seq<Bucket>, durMs: Option<int>, span: Span)

  predicate Reads(u: Unit, b: Bucket) { b.id == u.id && u.span.Holds(b.time) && b.value.Some? }

  function RawOf(b: Bucket, durMs: Option<int>, device: int): RawRow
    requires b.value.Some?
  {
    RawRow(b.time, b.value.value, durMs, device, b.metric)
  }

  /** The series arm: a row for each value the chunk reads that is not configuration. */
  function SeriesRows(rows: seq<Bucket>, u: Unit, m: Migration): seq<RawRow> {
    if rows == [] then []
    else
      var before, b := SeriesRows(rows[..|rows| - 1], u, m), rows[|rows| - 1];
      if Reads(u, b) && b.metric !in m.config then before + [RawOf(b, u.durMs, m.device)] else before
  }

  /** The configuration values the chunk reads, in time order. */
  function ConfigPolls(rows: seq<Bucket>, u: Unit, m: Migration): seq<LogRow> {
    if rows == [] then []
    else
      var before, b := ConfigPolls(rows[..|rows| - 1], u, m), rows[|rows| - 1];
      if Reads(u, b) && b.metric in m.config
      then before + [LogRow(b.time, b.value.value, m.device, b.metric)] else before
  }

  /** `lag`: the previous value of the metric within the chunk. */
  function Lag(polls: seq<LogRow>, metric: string): Option<real> {
    if polls == [] then None
    else if polls[|polls| - 1].metric == metric then Some(polls[|polls| - 1].value)
    else Lag(polls[..|polls| - 1], metric)
  }

  /** `prior`: the latest row logged for the metric before the chunk. */
  function Prior(log: seq<LogRow>, device: int, metric: string, before: int): Option<LogRow> {
    if log == [] then None
    else
      var earlier, row := Prior(log[..|log| - 1], device, metric, before), log[|log| - 1];
      if row.device == device && row.metric == metric && row.time < before
         && (earlier.None? || earlier.value.time <= row.time)
      then Some(row) else earlier
  }

  /** What the metric was before this poll: within the chunk, or else the last row logged before it. */
  function Known(log: seq<LogRow>, before: seq<LogRow>, device: int, metric: string, start: int): Option<real> {
    var lag := Lag(before, metric);
    if lag.Some? then lag
    else
      var prior := Prior(log, device, metric, start);
      if prior.Some? then Some(prior.value.value) else None
  }

  predicate IsChange(log: seq<LogRow>, before: seq<LogRow>, p: LogRow, start: int) {
    Known(log, before, p.device, p.metric, start) != Some(p.value)
  }

  /** The config arm: a row per change. */
  function Changes(log: seq<LogRow>, polls: seq<LogRow>, start: int): seq<LogRow> {
    if polls == [] then []
    else
      var before, p := polls[..|polls| - 1], polls[|polls| - 1];
      Changes(log, before, start) + if IsChange(log, before, p, start) then [p] else []
  }

  function KeyOf(u: Unit, m: Migration): Progress { Progress(u.source, m.device, u.span.start) }

  // ----- the units -------------------------------------------------------------

  const RAW_CARRY_SOURCE := "legacy-1.2.0-raw"
  const BUCKET_REPLAY_SOURCE := "legacy-1.2.0-buckets"
  const REFRESH_SOURCE := "legacy-1.2.0-refresh"

  /** The primary id keeps the bare watermark; every other id has one of its own. */
  function WatermarkSource(base: string, id: string, primary: string): string {
    if id == primary then base else base + "#" + id
  }

  function OfId(rows: seq<Bucket>, id: string): seq<Bucket> {
    if rows == [] then []
    else if rows[0].id == id then [rows[0]] + OfId(rows[1..], id) else OfId(rows[1..], id)
  }

  function First(rows: seq<Bucket>): int
    requires rows != []
  {
    if |rows| == 1 then rows[0].time else Min(rows[0].time, First(rows[1..]))
  }

  function Last(rows: seq<Bucket>): int
    requires rows != []
  {
    if |rows| == 1 then rows[0].time else Max(rows[0].time, Last(rows[1..]))
  }

  function Relation(m: Migration, tier: Tier): seq<Bucket> { if tier in m.tiers then m.tiers[tier] else [] }

  /** What each legacy tier holds of one source id. */
  function TierWindows(m: Migration, id: string, tiers: seq<Tier>): seq<Window>
    requires Raw !in tiers
  {
    if tiers == [] then []
    else
      var mine, later := OfId(Relation(m, tiers[0]), id), TierWindows(m, id, tiers[1..]);
      if mine == [] then later else [Window(tiers[0], First(mine), Last(mine) + BucketWidthMs(tiers[0]))] + later
  }

  /** The plan of one id, clamped to its own coverage on the shared bound. */
  function IdPieces(m: Migration, id: string): seq<Piece> {
    var ws := TierWindows(m, id, TIERS);
    if ws == [] then []
    else
      var latest := LastTo(ws);
      ReplayPieces(ws, FirstFrom(ws), FirstFrom(ws), if m.replayTo.Some? then Min(m.replayTo.value, latest) else latest)
  }

  function BucketUnits(m: Migration, id: string, primary: string, chunks: seq<Chunk>): (us: seq<Unit>)
    requires forall i :: 0 <= i < |chunks| ==> chunks[i].tier != Raw
    ensures |us| == |chunks|
    ensures forall i :: 0 <= i < |us| ==>
              us[i] == Unit(WatermarkSource(BUCKET_REPLAY_SOURCE, id, primary), id, Relation(m, chunks[i].tier),
                            Some(BucketWidthMs(chunks[i].tier)), chunks[i].span)
  {
    if chunks == [] then []
    else
      [Unit(WatermarkSource(BUCKET_REPLAY_SOURCE, id, primary), id, Relation(m, chunks[0].tier),
            Some(BucketWidthMs(chunks[0].tier)), chunks[0].span)]
      + BucketUnits(m, id, primary, chunks[1..])
  }

  lemma {:induction false} NoRawChunks(pieces: seq<Piece>)
    requires forall i :: 0 <= i < |pieces| && pieces[i].Answered? ==> pieces[i].tier != Raw
    ensures forall i :: 0 <= i < |ChunksOf(pieces)| ==> ChunksOf(pieces)[i].tier != Raw
  {
    if pieces != [] { NoRawChunks(pieces[1..]); }
  }

  function IdChunks(m: Migration, id: string): (chunks: seq<Chunk>)
    ensures forall i :: 0 <= i < |chunks| ==> chunks[i].tier != Raw
  {
    var ws := TierWindows(m, id, TIERS);
    assert forall i :: 0 <= i < |IdPieces(m, id)| && IdPieces(m, id)[i].Answered? ==>
        IdPieces(m, id)[i].tier != Raw by {
      if ws != [] {
        var latest := LastTo(ws);
        ReplayAnswersFromWindows(ws, FirstFrom(ws), FirstFrom(ws),
                                 if m.replayTo.Some? then Min(m.replayTo.value, latest) else latest);
      }
    }
    NoRawChunks(IdPieces(m, id));
    ChunksOf(IdPieces(m, id))
  }

  function ReplayUnits(m: Migration, ids: seq<string>, primary: string): seq<Unit> {
    if ids == [] then [] else BucketUnits(m, ids[0], primary, IdChunks(m, ids[0])) + ReplayUnits(m, ids[1..], primary)
  }

  /** The carry reads the retained raw samples as if they were minute buckets. */
  function CarryPieces(m: Migration, id: string): seq<Piece> {
    var mine := OfId(m.legacyRaw, id);
    if mine == [] then []
    else
      var w := Window(Minute, First(mine), Last(mine) + BucketWidthMs(Minute));
      ReplayPieces([w], w.from, w.from, w.to)
  }

  function CarryUnits(m: Migration, id: string, chunks: seq<Chunk>): (us: seq<Unit>)
    ensures |us| == |chunks|
    ensures forall i :: 0 <= i < |us| ==> us[i] == Unit(RAW_CARRY_SOURCE, id, m.legacyRaw, m.rawDurMs, chunks[i].span)
  {
    if chunks == [] then []
    else [Unit(RAW_CARRY_SOURCE, id, m.legacyRaw, m.rawDurMs, chunks[0].span)] + CarryUnits(m, id, chunks[1..])
  }

  function CarryPart(m: Migration, primary: string): seq<Unit> {
    if m.rawFrom.None? then [] else CarryUnits(m, primary, ChunksOf(CarryPieces(m, primary)))
  }

  function SourceOrder(m: Migration, primary: string): seq<string> { if m.ids == [] then [primary] else m.ids }

  function ReplayPart(m: Migration, primary: string): seq<Unit> { ReplayUnits(m, SourceOrder(m, primary), primary) }

  // ----- the statements ---------------------------------------------------------

  datatype Statement =
    | Commit(unit: Unit)
    | SetStage(stage: Stage)
    | RefreshWindow(tier: Tier, window: Span)
    | RecordRefresh(tier: Tier, window: Span)

  function TierName(tier: Tier): string {
    match tier
    case Raw => "raw"
    case Minute => "minute_rollups"
    case Hourly => "hourly_rollups"
    case Daily => "daily_rollups"
  }

  function RefreshKey(tier: Tier, window: Span, m: Migration): Progress {
    Progress(REFRESH_SOURCE + "-" + TierName(tier), m.device, window.start)
  }

  function Exec(db: Db, st: Statement, m: Migration): Db {
    match st
    case Commit(u) =>
      if KeyOf(u, m) in db.done then db
      else db.(raw := db.raw + SeriesRows(u.rows, u, m),
               log := db.log + Changes(db.log, ConfigPolls(u.rows, u, m), u.span.start),
               done := db.done + {KeyOf(u, m)})
    case SetStage(stage) => db.(stage := stage)
    case RefreshWindow(tier, window) =>
      if RefreshKey(tier, window, m) in db.done then db
      else db.(refreshed := db.refreshed + {Refresh(tier, window, |db.raw|)})
    case RecordRefresh(tier, window) => db.(done := db.done + {RefreshKey(tier, window, m)})
  }

  function ExecAll(db: Db, sts: seq<Statement>, m: Migration): Db
    decreases |sts|
  {
    if sts == [] then db else ExecAll(Exec(db, sts[0], m), sts[1..], m)
  }

  function Commits(us: seq<Unit>): (sts: seq<Statement>)
    ensures |sts| == |us| && forall i :: 0 <= i < |us| ==> sts[i] == Commit(us[i])
  {
    if us == [] then [] else [Commit(us[0])] + Commits(us[1..])
  }

  function Refreshes(tier: Tier, windows: seq<Span>): seq<Statement> {
    if windows == [] then []
    else [RefreshWindow(tier, windows[0]), RecordRefresh(tier, windows[0])] + Refreshes(tier, windows[1..])
  }

  /** The first and last row the device has in `metrics_raw`. */
  function WrittenSpan(raw: seq<RawRow>, device: int): Option<Span> {
    if raw == [] then None
    else
      var row := raw[|raw| - 1];
      match WrittenSpan(raw[..|raw| - 1], device)
      case None => if row.device == device then Some(Span(row.time, row.time)) else None
      case Some(s) => Some(if row.device == device then Span(Min(s.start, row.time), Max(s.end, row.time)) else s)
  }

  /** Hours before days: a day is built from its hours. */
  const REFRESH_ORDER: seq<Tier> := [Hourly, Daily, Minute]

  function TierRefreshes(span: Span, tiers: seq<Tier>, chunkMs: int): seq<Statement>
    requires Raw !in tiers
  {
    if tiers == [] then []
    else Refreshes(tiers[0], RefreshWindows.Plan(span, tiers[0], chunkMs)) + TierRefreshes(span, tiers[1..], chunkMs)
  }

  function RowPart(m: Migration, primary: string): seq<Statement> {
    Commits(CarryPart(m, primary)) + (if m.rawFrom.None? then [] else [SetStage(Carried)])
        + Commits(ReplayPart(m, primary))
  }

  function RefreshPart(raw: seq<RawRow>, m: Migration): seq<Statement> {
    match WrittenSpan(raw, m.device)
    case None => []
    case Some(span) => TierRefreshes(span, REFRESH_ORDER, m.chunkMs)
  }

  /** Everything an attempt does. The refresh is bounded by what actually landed. */
  function Program(db: Db, m: Migration, primary: string): seq<Statement> {
    var rows := RowPart(m, primary);
    rows + (RefreshPart(ExecAll(db, rows, m).raw, m) + [SetStage(Backfilled)])
  }

  predicate Active(db: Db, m: Migration) {
    m.sourceId.Some? && db.stage !in {NoMigration, Backfilled, Verified, Dropped}
  }

  /** An attempt killed after `n` statements. */
  function Attempt(db: Db, m: Migration, n: nat): Db {
    if Active(db, m) then ExecAll(db, Take(Program(db, m, m.sourceId.value), n), m) else db
  }

  function Attempts(db: Db, m: Migration, kills: seq<nat>): Db {
    if kills == [] then db else Attempt(Attempts(db, m, kills[..|kills| - 1]), m, kills[|kills| - 1])
  }

  /** One attempt that nothing interrupts. */
  function CleanRun(db: Db, m: Migration): Db
    requires Active(db, m)
  {
    ExecAll(db, Program(db, m, m.sourceId.value), m)
  }
}
