/**
 * Importing an archive, as a protocol that can be killed at any statement:
 * `overlapVerdict`, `preflight`, `importArchive` and `writeCompletionMarkers` of
 * packages/db/src/archive-import.ts over `runReplay` of packages/db/src/replay-run.ts.
 *
 * An attempt decides, and then executes a fixed list of statements; a kill after
 * `n` of them leaves the effect of the first `n`.
 */
module ArchiveImport {
  import opened Wrappers
  import opened Database
  import opened Spans
  import opened Replay
  import opened ExportRun

  // ----- the archive and the target ----------------------------------------

  /** The readings under their target's device names, and what the manifest claims of them. */
  datatype Archive = Archive(
    readings: seq<Reading>, span: Option<Span>, declared: set<Tier>, devices: seq<string>, configKeys: set<string>)

  /** `source` is the archive's content hash; `ids` resolves device slugs. */
  datatype Env = Env(source: string, ids: map<string, int>, batchRows: nat)

  /** The aggregates are represented by the refreshes that were called for, in order. */
  datatype Target = Target(
    raw: seq<RawRow>, stage: map<Tier, seq<Reading>>, progress: set<Progress>, refreshed: seq<Refresh>)

  /** Completion is recorded under a source of its own. */
  function DoneSource(source: string): (done: string)
    ensures done != source
  {
    source + "#done"
  }

  /** The manifest is true of the readings, and every device it names resolves to an id of its own. */
  predicate Consistent(a: Archive, env: Env) {
    && a.readings != [] && a.span.Some?
    && Distinct(a.devices)
    && (forall r :: r in a.readings ==>
          a.span.value.Holds(r.time) && r.series.device in a.devices && (r.tier == Raw || r.tier in a.declared))
    && (forall d :: d in a.devices ==> d in env.ids)
    && (forall d, e :: d in a.devices && e in a.devices && env.ids[d] == env.ids[e] ==> d == e)
  }

  function IdOf(env: Env, slug: string): int { if slug in env.ids then env.ids[slug] else 0 }

  function DeviceIds(a: Archive, env: Env): set<int> { set d | d in a.devices :: IdOf(env, d) }

  // ----- whether to import at all ------------------------------------------

  datatype Verdict = Proceed | Skip | Refuse(incomplete: bool)

  function OverlapVerdict(overlapping: nat, completed: nat, expected: nat, partialChunks: nat, force: bool): Verdict {
    if expected > 0 && completed >= expected then Skip
    else if overlapping == 0 || force then Proceed
    else Refuse(partialChunks > 0 || completed > 0)
  }

  function CountRows(raw: seq<RawRow>, devices: set<int>, span: Span): nat {
    if raw == [] then 0
    else
      var last := raw[|raw| - 1];
      CountRows(raw[..|raw| - 1], devices, span) + if last.device in devices && span.Holds(last.time) then 1 else 0
  }

  function OverlappingRows(t: Target, a: Archive, env: Env): nat {
    if a.span.None? then 0 else CountRows(t.raw, DeviceIds(a, env), a.span.value)
  }

  function Recorded(t: Target, source: string, devices: set<int>): set<Progress> {
    set p | p in t.progress && p.source == source && p.device in devices
  }

  function Preflight(t: Target, a: Archive, env: Env, force: bool): Verdict {
    var ids := DeviceIds(a, env);
    if exists d :: d in a.devices && d !in env.ids then Refuse(false)
    else OverlapVerdict(OverlappingRows(t, a, env), |Recorded(t, DoneSource(env.source), ids)|, |ids|,
                        |Recorded(t, env.source, ids)|, force)
  }

  // ----- the statements of an attempt --------------------------------------

  /** One day-chunk of one device's replay. */
  datatype Unit = Unit(slug: string, chunk: Chunk)

  datatype Statement =
    | DropStage(tier: Tier)
    | CreateStage(tier: Tier)
    | Insert(tier: Tier, rows: seq<Reading>)
    | ReplayChunk(unit: Unit)
    | RefreshTier(tier: Tier, window: Span)
    | MarkComplete(device: int, at: int)

  function RowOf(r: Reading, env: Env): RawRow {
    var durMs := if r.tier == Raw then r.durMs else Some(BucketWidthMs(r.tier));
    RawRow(r.time, r.value, durMs, IdOf(env, r.series.device), r.series.metric)
  }

  function RowsOf(rs: seq<Reading>, env: Env): (rows: seq<RawRow>)
    ensures |rows| == |rs|
  {
    if rs == [] then [] else RowsOf(rs[..|rs| - 1], env) + [RowOf(rs[|rs| - 1], env)]
  }

  predicate Selects(u: Unit, r: Reading, config: set<string>) {
    r.tier == u.chunk.tier && r.series.device == u.slug && u.chunk.span.Holds(r.time) && r.series.metric !in config
  }

  /** The staged rows a chunk turns into raw rows: configuration is routed elsewhere. */
  function Selected(rs: seq<Reading>, u: Unit, config: set<string>): seq<Reading> {
    if rs == [] then []
    else
      var before, r := Selected(rs[..|rs| - 1], u, config), rs[|rs| - 1];
      if Selects(u, r, config) then before + [r] else before
  }

  function KeyOf(u: Unit, env: Env): Progress { Progress(env.source, IdOf(env, u.slug), u.chunk.span.start) }

  function Staged(t: Target, tier: Tier): seq<Reading> { if tier in t.stage then t.stage[tier] else [] }

  /** The effect of one statement; a chunk commits its rows and its watermark together. */
  function Exec(t: Target, st: Statement, a: Archive, env: Env): Target {
    match st
    case DropStage(tier) => t.(stage := t.stage - {tier})
    case CreateStage(tier) => t.(stage := t.stage[tier := []])
    case Insert(tier, rows) =>
      if tier == Raw then t.(raw := t.raw + RowsOf(rows, env))
      else t.(stage := t.stage[tier := Staged(t, tier) + rows])
    case ReplayChunk(u) =>
      if KeyOf(u, env) in t.progress then t
      else t.(raw := t.raw + RowsOf(Selected(Staged(t, u.chunk.tier), u, a.configKeys), env),
              progress := t.progress + {KeyOf(u, env)})
    case RefreshTier(tier, window) => t.(refreshed := t.refreshed + [Refresh(tier, window, |t.raw|)])
    case MarkComplete(device, at) => t.(progress := t.progress + {Progress(DoneSource(env.source), device, at)})
  }

  function ExecAll(t: Target, sts: seq<Statement>, a: Archive, env: Env): Target
    decreases |sts|
  {
    if sts == [] then t else ExecAll(Exec(t, sts[0], a, env), sts[1..], a, env)
  }

  const BUCKETS: seq<Tier> := [Minute, Hourly, Daily]

  function BucketTiers(declared: set<Tier>, tiers: seq<Tier>): seq<Tier> {
    if tiers == [] then []
    else if tiers[0] in declared then [tiers[0]] + BucketTiers(declared, tiers[1..])
    else BucketTiers(declared, tiers[1..])
  }

  lemma {:induction false} BucketTiersKnown(declared: set<Tier>, tiers: seq<Tier>)
    ensures forall tier: Tier :: tier in BucketTiers(declared, tiers) <==> tier in declared && tier in tiers
  {
    if tiers != [] { BucketTiersKnown(declared, tiers[1..]); }
  }

  function SetUp(tiers: seq<Tier>): seq<Statement> {
    if tiers == [] then [] else [DropStage(tiers[0]), CreateStage(tiers[0])] + SetUp(tiers[1..])
  }

  /** One pass over the readings, each tier batched on its own, and the last batches flushed. */
  function Load(rs: seq<Reading>, pending: map<Tier, seq<Reading>>, size: nat): seq<Statement> {
    if rs == [] then Flush(pending, [Raw] + BUCKETS)
    else
      var r := rs[0];
      var batch := Pending(pending, r.tier) + [r];
      if |batch| >= size then [Insert(r.tier, batch)] + Load(rs[1..], pending[r.tier := []], size)
      else Load(rs[1..], pending[r.tier := batch], size)
  }

  function Pending(pending: map<Tier, seq<Reading>>, tier: Tier): seq<Reading> {
    if tier in pending then pending[tier] else []
  }

  function Flush(pending: map<Tier, seq<Reading>>, tiers: seq<Tier>): seq<Statement> {
    if tiers == [] then []
    else (if Pending(pending, tiers[0]) == [] then [] else [Insert(tiers[0], Pending(pending, tiers[0]))])
         + Flush(pending, tiers[1..])
  }

  function OfTier(rs: seq<Reading>, tier: Tier): seq<Reading> {
    if rs == [] then []
    else if rs[0].tier == tier then [rs[0]] + OfTier(rs[1..], tier) else OfTier(rs[1..], tier)
  }

  function OfDevice(rs: seq<Reading>, slug: string): seq<Reading> {
    if rs == [] then []
    else if rs[0].series.device == slug then [rs[0]] + OfDevice(rs[1..], slug) else OfDevice(rs[1..], slug)
  }

  function Earliest(rs: seq<Reading>): int
    requires rs != []
  {
    if |rs| == 1 then rs[0].time else Min(rs[0].time, Earliest(rs[1..]))
  }

  function Latest(rs: seq<Reading>): int
    requires rs != []
  {
    if |rs| == 1 then rs[0].time else Max(rs[0].time, Latest(rs[1..]))
  }

  /** What each staged tier holds of one device. */
  function StageWindows(rs: seq<Reading>, slug: string, tiers: seq<Tier>): (ws: seq<Window>)
    requires Raw !in tiers
  {
    if tiers == [] then []
    else
      var mine := OfDevice(OfTier(rs, tiers[0]), slug);
      var later := StageWindows(rs, slug, tiers[1..]);
      if mine == [] then later else [Window(tiers[0], Earliest(mine), Latest(mine) + BucketWidthMs(tiers[0]))] + later
  }

  /** The bucket tiers the manifest declares rows for. */
  function StagedTiers(a: Archive): (tiers: seq<Tier>)
    ensures Raw !in tiers
  {
    BucketTiersKnown(a.declared, BUCKETS);
    BucketTiers(a.declared, BUCKETS)
  }

  function DeviceWindows(a: Archive, slug: string): seq<Window> { StageWindows(a.readings, slug, StagedTiers(a)) }

  /** The replay plan of one device's staged rows. */
  function DevicePieces(a: Archive, slug: string): seq<Piece> {
    var ws := DeviceWindows(a, slug);
    if ws == [] then [] else ReplayPieces(ws, FirstFrom(ws), FirstFrom(ws), LastTo(ws))
  }

  function UnitsFor(slug: string, chunks: seq<Chunk>): (us: seq<Unit>)
    ensures |us| == |chunks| && forall i :: 0 <= i < |chunks| ==> us[i] == Unit(slug, chunks[i])
  {
    if chunks == [] then [] else [Unit(slug, chunks[0])] + UnitsFor(slug, chunks[1..])
  }

  function Units(a: Archive, devices: seq<string>): seq<Unit> {
    if devices == [] then [] else UnitsFor(devices[0], ChunksOf(DevicePieces(a, devices[0]))) + Units(a, devices[1..])
  }

  function Replays(us: seq<Unit>): (sts: seq<Statement>)
    ensures |sts| == |us| && forall i :: 0 <= i < |us| ==> sts[i] == ReplayChunk(us[i])
  {
    if us == [] then [] else [ReplayChunk(us[0])] + Replays(us[1..])
  }

  function Drops(tiers: seq<Tier>): (sts: seq<Statement>)
    ensures |sts| == |tiers| && forall i :: 0 <= i < |tiers| ==> sts[i] == DropStage(tiers[i])
  {
    if tiers == [] then [] else [DropStage(tiers[0])] + Drops(tiers[1..])
  }

  /** A day beyond the oldest and the newest reading: a bucket has to lie inside the window as a whole. */
  function RefreshWindow(a: Archive): Span
    requires a.readings != []
  {
    Span(Earliest(a.readings) - DAY_MS, Latest(a.readings) + DAY_MS)
  }

  /** Every aggregate over the whole span, an aggregate before those that are built from it. */
  function RefreshAll(window: Span): seq<Statement> {
    [RefreshTier(Minute, window), RefreshTier(Hourly, window), RefreshTier(Daily, window)]
  }

  function Marks(a: Archive, env: Env, devices: seq<string>): (sts: seq<Statement>)
    requires a.readings != []
    ensures |sts| == |devices|
    ensures forall i :: 0 <= i < |devices| ==> sts[i] == MarkComplete(IdOf(env, devices[i]), Earliest(a.readings))
  {
    if devices == [] then []
    else [MarkComplete(IdOf(env, devices[0]), Earliest(a.readings))] + Marks(a, env, devices[1..])
  }

  function LoadPart(a: Archive, env: Env): seq<Statement> {
    SetUp(StagedTiers(a)) + Load(a.readings, map[], env.batchRows)
  }

  function ReplayPart(a: Archive): seq<Statement> { Replays(Units(a, a.devices)) }

  function FinishPart(a: Archive, env: Env): seq<Statement>
    requires a.readings != []
  {
    Drops(StagedTiers(a)) + (RefreshAll(RefreshWindow(a)) + Marks(a, env, a.devices))
  }

  /** Everything an attempt does once it has decided to import. */
  function Program(a: Archive, env: Env): seq<Statement>
    requires a.readings != []
  {
    LoadPart(a, env) + (ReplayPart(a) + FinishPart(a, env))
  }

  /** An unforced attempt that is killed after `n` statements, or finishes when there are no more. */
  function Attempt(t: Target, a: Archive, env: Env, n: nat): Target
    requires Consistent(a, env)
  {
    if Preflight(t, a, env, false) == Proceed then ExecAll(t, Take(Program(a, env), n), a, env) else t
  }

  /** Any number of attempts, each with its own kill point. */
  function Attempts(t: Target, a: Archive, env: Env, kills: seq<nat>): Target
    requires Consistent(a, env)
  {
    if kills == [] then t else Attempt(Attempts(t, a, env, kills[..|kills| - 1]), a, env, kills[|kills| - 1])
  }
}
