/**
 * What every run of the import keeps: no reading reaches `metrics_raw` twice, a
 * completion marker means that all of them arrived, and a finished import is
 * never repeated.
 */
module ImportSafety {
  import opened Database
  import opened Spans
  import opened Replay
  import opened ExportRun
  import opened ArchiveImport

  // ----- executing prefixes ------------------------------------------------

  lemma {:induction false} ExecConcat(t: Target, x: seq<Statement>, y: seq<Statement>, a: Archive, env: Env)
    ensures ExecAll(t, x + y, a, env) == ExecAll(ExecAll(t, x, a, env), y, a, env)
    decreases |x|
  {
    if x == [] {
      assert x + y == y;
    } else {
      assert (x + y)[1..] == x[1..] + y;
      ExecConcat(Exec(t, x[0], a, env), x[1..], y, a, env);
    }
  }

  lemma ExecTwo(t: Target, first: Statement, second: Statement, a: Archive, env: Env)
    ensures ExecAll(t, [first, second], a, env) == Exec(Exec(t, first, a, env), second, a, env)
  {
    assert [first, second][1..] == [second] && [second][1..] == [];
    assert ExecAll(t, [first, second], a, env) == ExecAll(Exec(t, first, a, env), [second], a, env);
  }

  lemma TakeThen(t: Target, x: seq<Statement>, y: seq<Statement>, n: nat, a: Archive, env: Env)
    ensures ExecAll(ExecAll(t, Take(x, n), a, env), Take(y, Left(n, |x|)), a, env) == ExecAll(t, Take(x + y, n), a, env)
  {
    ExecConcat(t, Take(x, n), Take(y, Left(n, |x|)), a, env);
    assert Take(x, n) + Take(y, Left(n, |x|)) == Take(x + y, n);
  }

  lemma {:induction false} RowsConcat(x: seq<Reading>, y: seq<Reading>, env: Env)
    ensures RowsOf(x + y, env) == RowsOf(x, env) + RowsOf(y, env)
  {
    if y == [] {
      assert x + y == x;
    } else {
      assert (x + y)[..|x + y| - 1] == x + y[..|y| - 1];
      RowsConcat(x, y[..|y| - 1], env);
    }
  }

  // ----- the load ----------------------------------------------------------

  predicate Loading(st: Statement) { st.DropStage? || st.CreateStage? || st.Insert? }

  /** What a run of statements puts into the relation of one tier. */
  function Put(sts: seq<Statement>, tier: Tier): seq<Reading> {
    if sts == [] then []
    else (if sts[0].Insert? && sts[0].tier == tier then sts[0].rows else []) + Put(sts[1..], tier)
  }

  lemma {:induction false} PutConcat(x: seq<Statement>, y: seq<Statement>, tier: Tier)
    ensures Put(x + y, tier) == Put(x, tier) + Put(y, tier)
  {
    if x == [] {
      assert x + y == y;
    } else {
      assert (x + y)[1..] == x[1..] + y;
      PutConcat(x[1..], y, tier);
    }
  }

  lemma PutOne(into: Tier, rows: seq<Reading>, tier: Tier)
    ensures Put([Insert(into, rows)], tier) == if into == tier then rows else []
  {
    assert [Insert(into, rows)][1..] == [];
  }

  lemma {:induction false} FlushPuts(pending: map<Tier, seq<Reading>>, tiers: seq<Tier>, tier: Tier)
    requires forall i, j :: 0 <= i < j < |tiers| ==> tiers[i] != tiers[j]
    ensures Put(Flush(pending, tiers), tier) == if tier in tiers then Pending(pending, tier) else []
    ensures forall st :: st in Flush(pending, tiers) ==> st.Insert?
  {
    if tiers != [] {
      FlushPuts(pending, tiers[1..], tier);
      var head := if Pending(pending, tiers[0]) == [] then [] else [Insert(tiers[0], Pending(pending, tiers[0]))];
      PutConcat(head, Flush(pending, tiers[1..]), tier);
      assert Put(head, tier) == if tiers[0] == tier then Pending(pending, tier) else [];
    }
  }

  lemma {:induction false} LoadInserts(rs: seq<Reading>, pending: map<Tier, seq<Reading>>, size: nat)
    ensures forall st :: st in Load(rs, pending, size) ==> st.Insert?
  {
    if rs == [] {
      FlushPuts(pending, [Raw] + BUCKETS, Raw);
    } else {
      LoadInserts(rs[1..], pending[rs[0].tier := []], size);
      LoadInserts(rs[1..], pending[rs[0].tier := Pending(pending, rs[0].tier) + [rs[0]]], size);
    }
  }

  /** Batching loses and reorders nothing: each relation receives its own tier's readings, in file order. */
  lemma {:induction false} LoadPuts(rs: seq<Reading>, pending: map<Tier, seq<Reading>>, size: nat, tier: Tier)
    ensures Put(Load(rs, pending, size), tier) == Pending(pending, tier) + OfTier(rs, tier)
  {
    if rs == [] {
      FlushPuts(pending, [Raw] + BUCKETS, tier);
      assert tier in [Raw] + BUCKETS by {
        match tier { case Raw => case Minute => case Hourly => case Daily => }
      }
    } else {
      hide Put, Flush, Pending, OfTier;
      var r := rs[0];
      var batch := Pending(pending, r.tier) + [r];
      BatchStep(rs, pending, tier);
      if |batch| >= size {
        LoadPuts(rs[1..], pending[r.tier := []], size, tier);
        PutConcat([Insert(r.tier, batch)], Load(rs[1..], pending[r.tier := []], size), tier);
        PutOne(r.tier, batch, tier);
      } else {
        LoadPuts(rs[1..], pending[r.tier := batch], size, tier);
      }
    }
  }

  /** Taking in one reading, with or without flushing its batch. */
  lemma BatchStep(rs: seq<Reading>, pending: map<Tier, seq<Reading>>, tier: Tier)
    requires rs != []
    ensures var r := rs[0];
            var batch := Pending(pending, r.tier) + [r];
            && Pending(pending[r.tier := batch], tier) + OfTier(rs[1..], tier)
                == Pending(pending, tier) + OfTier(rs, tier)
            && (if r.tier == tier then batch else []) + (Pending(pending[r.tier := []], tier) + OfTier(rs[1..], tier))
               == Pending(pending, tier) + OfTier(rs, tier)
  {
    var r, held, rest := rs[0], Pending(pending, tier), OfTier(rs[1..], tier);
    if r.tier == tier {
      assert OfTier(rs, tier) == [r] + rest;
      Regroup(held, [r], rest);
      assert Pending(pending[r.tier := []], tier) + rest == rest;
    } else {
      assert OfTier(rs, tier) == rest;
    }
  }

  lemma {:induction false} LoadingRuns(t: Target, sts: seq<Statement>, a: Archive, env: Env)
    requires forall st :: st in sts ==> Loading(st)
    ensures var t' := ExecAll(t, sts, a, env);
            t'.raw == t.raw + RowsOf(Put(sts, Raw), env) && t'.progress == t.progress
    decreases |sts|
  {
    if sts != [] {
      var now := Exec(t, sts[0], a, env);
      LoadingRuns(now, sts[1..], a, env);
      assert Loading(sts[0]);
      assert now.progress == t.progress;
      if sts[0].Insert? && sts[0].tier == Raw {
        RowsConcat(sts[0].rows, Put(sts[1..], Raw), env);
        Regroup(t.raw, RowsOf(sts[0].rows, env), RowsOf(Put(sts[1..], Raw), env));
        assert now.raw == t.raw + RowsOf(sts[0].rows, env);
      } else {
        assert now.raw == t.raw;
        assert Put(sts, Raw) == Put(sts[1..], Raw);
      }
    }
  }

  lemma {:induction false} InsertsStage(t: Target, sts: seq<Statement>, a: Archive, env: Env, tier: Tier)
    requires forall st :: st in sts ==> st.Insert?
    requires tier != Raw
    ensures Staged(ExecAll(t, sts, a, env), tier) == Staged(t, tier) + Put(sts, tier)
    decreases |sts|
  {
    if sts != [] { InsertsStage(Exec(t, sts[0], a, env), sts[1..], a, env, tier); }
  }

  lemma {:induction false} SetUpEmpties(t: Target, tiers: seq<Tier>, a: Archive, env: Env, tier: Tier)
    ensures forall st :: st in SetUp(tiers) ==> Loading(st) && !st.Insert?
    ensures Put(SetUp(tiers), Raw) == [] && |SetUp(tiers)| == 2 * |tiers|
    ensures tier in tiers || Staged(t, tier) == [] ==> Staged(ExecAll(t, SetUp(tiers), a, env), tier) == []
    decreases |tiers|
  {
    if tiers != [] {
      var drop, create := DropStage(tiers[0]), CreateStage(tiers[0]);
      var next := Exec(Exec(t, drop, a, env), create, a, env);
      SetUpEmpties(next, tiers[1..], a, env, tier);
      ExecConcat(t, [drop, create], SetUp(tiers[1..]), a, env);
      ExecTwo(t, drop, create, a, env);
      PutConcat([drop, create], SetUp(tiers[1..]), Raw);
    }
  }

  /** A finished load has put the raw readings into `metrics_raw` and every declared tier into its staging table. */
  lemma LoadFills(t: Target, a: Archive, env: Env, tier: Tier)
    requires tier in a.declared && tier != Raw
    ensures Staged(ExecAll(t, LoadPart(a, env), a, env), tier) == OfTier(a.readings, tier)
  {
    var setUp, load := SetUp(StagedTiers(a)), Load(a.readings, map[], env.batchRows);
    BucketTiersKnown(a.declared, BUCKETS);
    assert tier in BUCKETS by { match tier { case Raw => case Minute => case Hourly => case Daily => } }
    SetUpEmpties(t, StagedTiers(a), a, env, tier);
    LoadPuts(a.readings, map[], env.batchRows, tier);
    LoadInserts(a.readings, map[], env.batchRows);
    ExecConcat(t, setUp, load, a, env);
    InsertsStage(ExecAll(t, setUp, a, env), load, a, env, tier);
  }

  lemma LoadPartPuts(t: Target, a: Archive, env: Env)
    ensures forall st :: st in LoadPart(a, env) ==> Loading(st)
    ensures Put(LoadPart(a, env), Raw) == OfTier(a.readings, Raw)
  {
    var setUp, load := SetUp(StagedTiers(a)), Load(a.readings, map[], env.batchRows);
    SetUpEmpties(t, StagedTiers(a), a, env, Minute);
    LoadPuts(a.readings, map[], env.batchRows, Raw);
    LoadInserts(a.readings, map[], env.batchRows);
    PutConcat(setUp, load, Raw);
  }

  /** A load killed anywhere has inserted a prefix of the raw readings. */
  lemma LoadPrefix(t: Target, a: Archive, env: Env, n: nat)
    requires n <= |LoadPart(a, env)|
    ensures var t' := ExecAll(t, LoadPart(a, env)[..n], a, env);
            && t'.progress == t.progress
            && t.raw <= t'.raw <= t.raw + RowsOf(OfTier(a.readings, Raw), env)
            && (n == |LoadPart(a, env)| ==> t'.raw == t.raw + RowsOf(OfTier(a.readings, Raw), env))
  {
    var load := LoadPart(a, env);
    LoadPartPuts(t, a, env);
    LoadingRuns(t, load[..n], a, env);
    assert load == load[..n] + load[n..];
    PutConcat(load[..n], load[n..], Raw);
    RowsConcat(Put(load[..n], Raw), Put(load[n..], Raw), env);
    if n == |load| { assert load[..n] == load; }
  }

  // ----- the replay --------------------------------------------------------

  /** The rows one chunk turns into. */
  function UnitRows(rs: seq<Reading>, u: Unit, config: set<string>, env: Env): seq<RawRow> {
    RowsOf(Selected(rs, u, config), env)
  }

  function AllRows(us: seq<Unit>, rs: seq<Reading>, config: set<string>, env: Env): seq<RawRow> {
    if us == [] then [] else UnitRows(rs, us[0], config, env) + AllRows(us[1..], rs, config, env)
  }

  /** What replaying the units writes when the chunks in `done` already carry a watermark. */
  function Emitted(us: seq<Unit>, done: set<Progress>, a: Archive, env: Env): seq<RawRow> {
    if us == [] then []
    else
      (if KeyOf(us[0], env) in done then [] else UnitRows(a.readings, us[0], a.configKeys, env))
      + Emitted(us[1..], done + {KeyOf(us[0], env)}, a, env)
  }

  function Keys(us: seq<Unit>, env: Env): set<Progress> { set u | u in us :: KeyOf(u, env) }

  lemma {:induction false} OfTierSnoc(rs: seq<Reading>, r: Reading, tier: Tier)
    ensures OfTier(rs + [r], tier) == OfTier(rs, tier) + if r.tier == tier then [r] else []
  {
    if rs == [] {
      assert [r][1..] == [] && rs + [r] == [r];
    } else {
      assert (rs + [r])[1..] == rs[1..] + [r];
      OfTierSnoc(rs[1..], r, tier);
    }
  }

  lemma {:induction false} SelectedOfTier(rs: seq<Reading>, u: Unit, config: set<string>)
    ensures Selected(OfTier(rs, u.chunk.tier), u, config) == Selected(rs, u, config)
  {
    if rs != [] {
      var before, r := rs[..|rs| - 1], rs[|rs| - 1];
      assert rs == before + [r];
      OfTierSnoc(before, r, u.chunk.tier);
      SelectedOfTier(before, u, config);
      if r.tier == u.chunk.tier {
        var staged := OfTier(rs, u.chunk.tier);
        assert staged[..|staged| - 1] == OfTier(before, u.chunk.tier);
      } else {
        assert OfTier(rs, u.chunk.tier) == OfTier(before, u.chunk.tier);
      }
    }
  }

  predicate FullyStaged(t: Target, a: Archive) {
    forall tier: Tier :: tier in a.declared && tier != Raw ==> Staged(t, tier) == OfTier(a.readings, tier)
  }

  predicate FromStages(us: seq<Unit>, a: Archive) {
    forall i :: 0 <= i < |us| ==> us[i].chunk.tier in a.declared && us[i].chunk.tier != Raw
  }

  /** One chunk: skipped on its watermark, or committed with it. */
  lemma CommitChunk(t: Target, u: Unit, a: Archive, env: Env)
    requires u.chunk.tier in a.declared && u.chunk.tier != Raw && FullyStaged(t, a)
    ensures var t' := Exec(t, ReplayChunk(u), a, env);
            && t'.raw == t.raw
                         + (if KeyOf(u, env) in t.progress then [] else UnitRows(a.readings, u, a.configKeys, env))
            && t'.progress == t.progress + {KeyOf(u, env)} && FullyStaged(t', a)
  {
    SelectedOfTier(a.readings, u, a.configKeys);
  }

  lemma {:induction false} ReplayRuns(t: Target, us: seq<Unit>, a: Archive, env: Env)
    requires FromStages(us, a) && FullyStaged(t, a)
    ensures var t' := ExecAll(t, Replays(us), a, env);
            t'.raw == t.raw + Emitted(us, t.progress, a, env) && t'.progress == t.progress + Keys(us, env)
    decreases |us|
  {
    if us != [] {
      hide *;
      var now := Exec(t, ReplayChunk(us[0]), a, env);
      FirstUnit(us, a);
      CommitChunk(t, us[0], a, env);
      ReplaysFirst(t, us, a, env);
      ReplayRuns(now, us[1..], a, env);
      KeysStep(us, env);
      EmittedStep(us, t.progress, a, env);
      Regroup(t.raw, if KeyOf(us[0], env) in t.progress then [] else UnitRows(a.readings, us[0], a.configKeys, env),
              Emitted(us[1..], now.progress, a, env));
      assert t.progress + {KeyOf(us[0], env)} + Keys(us[1..], env)
          == t.progress + ({KeyOf(us[0], env)} + Keys(us[1..], env));
    }
  }

  lemma FirstUnit(us: seq<Unit>, a: Archive)
    requires us != [] && FromStages(us, a)
    ensures us[0].chunk.tier in a.declared && us[0].chunk.tier != Raw && FromStages(us[1..], a)
  {
  }

  lemma EmittedStep(us: seq<Unit>, done: set<Progress>, a: Archive, env: Env)
    requires us != []
    ensures Emitted(us, done, a, env)
         == (if KeyOf(us[0], env) in done then [] else UnitRows(a.readings, us[0], a.configKeys, env))
            + Emitted(us[1..], done + {KeyOf(us[0], env)}, a, env)
  {
  }

  lemma ReplaysFirst(t: Target, us: seq<Unit>, a: Archive, env: Env)
    requires us != []
    ensures ExecAll(t, Replays(us), a, env) == ExecAll(Exec(t, ReplayChunk(us[0]), a, env), Replays(us[1..]), a, env)
  {
    assert Replays(us)[1..] == Replays(us[1..]);
  }

  lemma KeysStep(us: seq<Unit>, env: Env)
    requires us != []
    ensures Keys(us, env) == {KeyOf(us[0], env)} + Keys(us[1..], env)
  {
    assert us == [us[0]] + us[1..];
  }

  lemma {:induction false} EmittedPrefix(us: seq<Unit>, k: nat, done: set<Progress>, a: Archive, env: Env)
    requires k <= |us|
    ensures Emitted(us[..k], done, a, env) <= Emitted(us, done, a, env)
  {
    if k > 0 {
      assert us[..k][1..] == us[1..][..k - 1];
      EmittedPrefix(us[1..], k - 1, done + {KeyOf(us[0], env)}, a, env);
    }
  }

  lemma {:induction false} EmittedBounded(us: seq<Unit>, done: set<Progress>, a: Archive, env: Env)
    ensures multiset(Emitted(us, done, a, env)) <= multiset(AllRows(us, a.readings, a.configKeys, env))
  {
    if us != [] { EmittedBounded(us[1..], done + {KeyOf(us[0], env)}, a, env); }
  }

  predicate DistinctKeys(us: seq<Unit>, env: Env) {
    forall i, j :: 0 <= i < j < |us| ==> KeyOf(us[i], env) != KeyOf(us[j], env)
  }

  /** Every unit that carries a watermark has nothing to write. */
  predicate DoneAreEmpty(us: seq<Unit>, done: set<Progress>, a: Archive, env: Env) {
    forall i :: 0 <= i < |us| && KeyOf(us[i], env) in done ==> UnitRows(a.readings, us[i], a.configKeys, env) == []
  }

  lemma {:induction false} EmittedIsAll(us: seq<Unit>, done: set<Progress>, a: Archive, env: Env)
    requires DistinctKeys(us, env) && DoneAreEmpty(us, done, a, env)
    ensures Emitted(us, done, a, env) == AllRows(us, a.readings, a.configKeys, env)
  {
    if us != [] {
      var later := us[1..];
      assert forall i :: 0 <= i < |later| ==> later[i] == us[i + 1];
      assert DoneAreEmpty(later, done + {KeyOf(us[0], env)}, a, env);
      EmittedIsAll(later, done + {KeyOf(us[0], env)}, a, env);
    }
  }

  lemma {:induction false} EmptyAllRows(us: seq<Unit>, a: Archive, env: Env, i: nat)
    requires AllRows(us, a.readings, a.configKeys, env) == [] && i < |us|
    ensures UnitRows(a.readings, us[i], a.configKeys, env) == []
  {
    if i > 0 { EmptyAllRows(us[1..], a, env, i - 1); }
  }

  // ----- every reading belongs to at most one unit --------------------------

  function SelHits(us: seq<Unit>, r: Reading, config: set<string>): nat {
    if us == [] then 0 else (if Selects(us[0], r, config) then 1 else 0) + SelHits(us[1..], r, config)
  }

  lemma {:induction false} SelHitsConcat(x: seq<Unit>, y: seq<Unit>, r: Reading, config: set<string>)
    ensures SelHits(x + y, r, config) == SelHits(x, r, config) + SelHits(y, r, config)
  {
    if x == [] {
      assert x + y == y;
    } else {
      assert (x + y)[1..] == x[1..] + y;
      SelHitsConcat(x[1..], y, r, config);
    }
  }

  lemma {:induction false} SelHitsOfDevice(slug: string, chunks: seq<Chunk>, r: Reading, config: set<string>)
    ensures SelHits(UnitsFor(slug, chunks), r, config)
         == if r.series.device == slug && r.series.metric !in config then TierHits(chunks, r.tier, r.time) else 0
  {
    if chunks != [] {
      assert UnitsFor(slug, chunks)[1..] == UnitsFor(slug, chunks[1..]);
      SelHitsOfDevice(slug, chunks[1..], r, config);
    }
  }

  lemma {:induction false} EarliestIsFirst(rs: seq<Reading>)
    requires rs != []
    ensures Earliest(rs) <= Latest(rs)
  {
    if |rs| > 1 { EarliestIsFirst(rs[1..]); }
  }

  lemma {:induction false} StageWindowsForward(rs: seq<Reading>, slug: string, tiers: seq<Tier>)
    requires Raw !in tiers
    ensures forall w :: w in StageWindows(rs, slug, tiers) ==> w.from <= w.to
  {
    if tiers != [] {
      StageWindowsForward(rs, slug, tiers[1..]);
      var mine := OfDevice(OfTier(rs, tiers[0]), slug);
      if mine != [] { EarliestIsFirst(mine); }
    }
  }

  /** A device's pieces tile its staged span, so they have strictly ascending starts. */
  lemma DevicePiecesTile(a: Archive, slug: string)
    ensures var pieces := DevicePieces(a, slug);
            var ws := DeviceWindows(a, slug);
            if ws == [] then pieces == [] else Tiles(SpansOf(pieces), FirstFrom(ws), LastTo(ws))
  {
    var ws := DeviceWindows(a, slug);
    if ws != [] {
      StageWindowsForward(a.readings, slug, StagedTiers(a));
      assert forall i :: 0 <= i < |ws| ==> ws[i] in ws;
      WindowsNotEmpty(ws);
      ReplayTiles(ws, FirstFrom(ws), FirstFrom(ws), LastTo(ws));
    }
  }

  lemma DeviceSelectsOnce(a: Archive, slug: string, r: Reading)
    ensures SelHits(UnitsFor(slug, ChunksOf(DevicePieces(a, slug))), r, a.configKeys)
         <= if r.series.device == slug && r.tier != Raw then 1 else 0
  {
    var pieces := DevicePieces(a, slug);
    SelHitsOfDevice(slug, ChunksOf(pieces), r, a.configKeys);
    DevicePiecesTile(a, slug);
    if pieces != [] {
      var ws := DeviceWindows(a, slug);
      NoRawInReplay(ws, FirstFrom(ws), FirstFrom(ws), LastTo(ws), r.time);
      TilesHitOnce(SpansOf(pieces), FirstFrom(ws), LastTo(ws), r.time);
      TierHitsBounded(pieces, r.tier, r.time);
    }
  }

  /** No reading is selected by two chunks, and a raw one by none. */
  lemma {:induction false} EachReadingSelectedOnce(a: Archive, devices: seq<string>, r: Reading)
    requires Distinct(devices)
    ensures SelHits(Units(a, devices), r, a.configKeys) <= if r.series.device in devices && r.tier != Raw then 1 else 0
  {
    if devices != [] {
      DeviceSelectsOnce(a, devices[0], r);
      EachReadingSelectedOnce(a, devices[1..], r);
      SelHitsConcat(UnitsFor(devices[0], ChunksOf(DevicePieces(a, devices[0]))), Units(a, devices[1..]), r,
          a.configKeys);
      assert devices[0] !in devices[1..];
    }
  }

  // ----- the units come from staged tiers, each with a watermark of its own --

  lemma {:induction false} ChunksAreAnswers(pieces: seq<Piece>, i: nat)
    requires i < |ChunksOf(pieces)|
    ensures Answered(ChunksOf(pieces)[i].tier, ChunksOf(pieces)[i].span) in pieces
  {
    if pieces[0].Answered? {
      if i > 0 { ChunksAreAnswers(pieces[1..], i - 1); }
    } else {
      ChunksAreAnswers(pieces[1..], i);
    }
  }

  lemma {:induction false} WindowIsStaged(rs: seq<Reading>, slug: string, tiers: seq<Tier>, tier: Tier)
    requires Raw !in tiers && WindowOf(StageWindows(rs, slug, tiers), tier).Some?
    ensures OfTier(rs, tier) != []
  {
    if tiers != [] {
      var mine := OfDevice(OfTier(rs, tiers[0]), slug);
      if mine == [] || tiers[0] != tier {
        if mine != [] {
          var ws := StageWindows(rs, slug, tiers);
          assert ws[1..] == StageWindows(rs, slug, tiers[1..]);
        }
        WindowIsStaged(rs, slug, tiers[1..], tier);
      }
    }
  }

  lemma {:induction false} TierOccurs(rs: seq<Reading>, tier: Tier)
    requires OfTier(rs, tier) != []
    ensures exists r :: r in rs && r.tier == tier
  {
    if rs[0].tier != tier {
      TierOccurs(rs[1..], tier);
      var r :| r in rs[1..] && r.tier == tier;
      assert r in rs;
    }
  }

  lemma DeviceUnitsStaged(a: Archive, env: Env, slug: string)
    requires Consistent(a, env)
    ensures FromStages(UnitsFor(slug, ChunksOf(DevicePieces(a, slug))), a)
  {
    var pieces := DevicePieces(a, slug);
    var ws := DeviceWindows(a, slug);
    forall i | 0 <= i < |ChunksOf(pieces)|
      ensures ChunksOf(pieces)[i].tier in a.declared && ChunksOf(pieces)[i].tier != Raw
    {
      ChunksAreAnswers(pieces, i);
      ReplayAnswersFromWindows(ws, FirstFrom(ws), FirstFrom(ws), LastTo(ws));
      WindowIsStaged(a.readings, slug, StagedTiers(a), ChunksOf(pieces)[i].tier);
      TierOccurs(a.readings, ChunksOf(pieces)[i].tier);
    }
  }

  lemma {:induction false} UnitsStaged(a: Archive, env: Env, devices: seq<string>)
    requires Consistent(a, env)
    ensures FromStages(Units(a, devices), a)
    ensures forall i :: 0 <= i < |Units(a, devices)| ==> Units(a, devices)[i].slug in devices
  {
    if devices != [] {
      DeviceUnitsStaged(a, env, devices[0]);
      UnitsStaged(a, env, devices[1..]);
    }
  }

  lemma DeviceKeysDistinct(a: Archive, env: Env, slug: string)
    ensures DistinctKeys(UnitsFor(slug, ChunksOf(DevicePieces(a, slug))), env)
  {
    DevicePiecesTile(a, slug);
    var ws := DeviceWindows(a, slug);
    if ws != [] { TilesAscend(DevicePieces(a, slug), FirstFrom(ws), LastTo(ws)); }
  }

  /** No two chunks of an import share a watermark. */
  lemma {:induction false} UnitKeysDistinct(a: Archive, env: Env, devices: seq<string>)
    requires Consistent(a, env) && Distinct(devices) && forall d :: d in devices ==> d in a.devices
    ensures DistinctKeys(Units(a, devices), env)
  {
    if devices != [] {
      var mine, later := UnitsFor(devices[0], ChunksOf(DevicePieces(a, devices[0]))), Units(a, devices[1..]);
      DeviceKeysDistinct(a, env, devices[0]);
      UnitKeysDistinct(a, env, devices[1..]);
      UnitsStaged(a, env, devices[1..]);
      assert devices[0] !in devices[1..];
      forall i, j | 0 <= i < |mine| && 0 <= j < |later|
        ensures IdOf(env, mine[i].slug) != IdOf(env, later[j].slug) {}
    }
  }

  // ----- finishing ----------------------------------------------------------

  predicate Finishing(st: Statement) { st.DropStage? || st.RefreshTier? || st.MarkComplete? }

  lemma {:induction false} FinishRuns(t: Target, sts: seq<Statement>, a: Archive, env: Env)
    requires forall st :: st in sts ==> Finishing(st)
    ensures var t' := ExecAll(t, sts, a, env);
            && t'.raw == t.raw && t.progress <= t'.progress
            && (forall p :: p in t'.progress && p !in t.progress ==> p.source == DoneSource(env.source))
            && (forall st :: st in sts && st.MarkComplete? ==>
                  Progress(DoneSource(env.source), st.device, st.at) in t'.progress)
    decreases |sts|
  {
    if sts != [] {
      assert Finishing(sts[0]);
      FinishRuns(Exec(t, sts[0], a, env), sts[1..], a, env);
    }
  }

  lemma FinishPartFinishes(a: Archive, env: Env)
    requires a.readings != []
    ensures FinishPart(a, env) != [] && forall st :: st in FinishPart(a, env) ==> Finishing(st)
    ensures forall d :: d in a.devices ==> MarkComplete(IdOf(env, d), Earliest(a.readings)) in FinishPart(a, env)
  {
    var marks := Marks(a, env, a.devices);
    forall d | d in a.devices ensures MarkComplete(IdOf(env, d), Earliest(a.readings)) in marks {
      var i :| 0 <= i < |a.devices| && a.devices[i] == d;
      assert marks[i] == MarkComplete(IdOf(env, d), Earliest(a.readings));
    }
  }

  // ----- one attempt --------------------------------------------------------

  /** What an attempt writes in full, given the watermarks it starts from. */
  function Effective(t: Target, a: Archive, env: Env): seq<RawRow> {
    RowsOf(OfTier(a.readings, Raw), env) + Emitted(Units(a, a.devices), t.progress, a, env)
  }

  predicate AllMarked(t: Target, a: Archive, env: Env) {
    forall d :: d in a.devices
        ==> exists p :: p in t.progress && p.source == DoneSource(env.source) && p.device == IdOf(env, d)
  }

  /** The program up to the end of the replay, killed `k` chunks into it. */
  lemma UpToChunk(t: Target, a: Archive, env: Env, k: nat)
    requires Consistent(a, env) && k <= |Units(a, a.devices)|
    ensures var us := Units(a, a.devices);
            var t' := ExecAll(t, LoadPart(a, env) + Replays(us[..k]), a, env);
            && t'.raw == t.raw + (RowsOf(OfTier(a.readings, Raw), env) + Emitted(us[..k], t.progress, a, env))
            && t'.progress == t.progress + Keys(us[..k], env)
  {
    hide LoadPart, Units, ExecAll, Exec, Emitted, Keys, RowsOf, OfTier, Replays;
    var us, load := Units(a, a.devices), LoadPart(a, env);
    var loaded := ExecAll(t, load, a, env);
    LoadPrefix(t, a, env, |load|);
    assert load[..|load|] == load;
    forall tier: Tier | tier in a.declared && tier != Raw
      ensures Staged(loaded, tier) == OfTier(a.readings, tier)
    {
      LoadFills(t, a, env, tier);
    }
    UnitsStaged(a, env, a.devices);
    ReplayRuns(loaded, us[..k], a, env);
    ExecConcat(t, load, Replays(us[..k]), a, env);
  }

  /** The program killed after `n` statements, by where it was killed. */
  lemma ProgramCut(a: Archive, env: Env, n: nat)
    requires a.readings != []
    ensures var load, us := LoadPart(a, env), Units(a, a.devices);
            Take(Program(a, env), n)
            == if n <= |load| then load[..n]
               else if n <= |load| + |us| then load + Replays(us[..n - |load|])
               else (load + Replays(us)) + Take(FinishPart(a, env), n - |load| - |us|)
  {
    hide LoadPart, Units, FinishPart, Replays;
    var load, us, finish := LoadPart(a, env), Units(a, a.devices), FinishPart(a, env);
    var replays := Replays(us);
    if n > |load| {
      var k := n - |load|;
      assert Take(Program(a, env), n) == load + Take(replays + finish, k);
      if k <= |us| {
        assert Take(replays + finish, k) == replays[..k];
        assert replays[..k] == Replays(us[..k]);
      } else {
        assert Take(replays + finish, k) == replays + Take(finish, k - |us|);
      }
    }
  }

  /** Killed in the load: a prefix of the raw readings, and no watermark. */
  predicate StillLoading(t: Target, t': Target, a: Archive, env: Env) {
    t'.progress == t.progress && t.raw <= t'.raw <= t.raw + RowsOf(OfTier(a.readings, Raw), env)
  }

  /** `k` chunks into the replay; nothing is marked complete before the last one. */
  predicate Reached(t: Target, t': Target, a: Archive, env: Env, k: nat) {
    var us := Units(a, a.devices);
    && k <= |us|
    && t'.raw == t.raw + (RowsOf(OfTier(a.readings, Raw), env) + Emitted(us[..k], t.progress, a, env))
    && t.progress + Keys(us[..k], env) <= t'.progress
    && forall p :: p in t'.progress ==>
         p in t.progress || p in Keys(us[..k], env) || (k == |us| && p.source == DoneSource(env.source))
  }

  lemma AfterReplay(t: Target, a: Archive, env: Env, n: nat)
    requires Consistent(a, env)
    ensures var us := Units(a, a.devices);
            var t' := ExecAll(t, (LoadPart(a, env) + Replays(us)) + Take(FinishPart(a, env), n), a, env);
            Reached(t, t', a, env, |us|) && (n >= |FinishPart(a, env)| ==> AllMarked(t', a, env))
  {
    hide LoadPart, Units, FinishPart, ExecAll, Exec, Emitted, Keys, RowsOf, OfTier, Replays;
    var us, finish := Units(a, a.devices), Take(FinishPart(a, env), n);
    var before := LoadPart(a, env) + Replays(us);
    assert us[..|us|] == us;
    UpToChunk(t, a, env, |us|);
    FinishPartFinishes(a, env);
    assert forall st :: st in finish ==> st in FinishPart(a, env);
    FinishRuns(ExecAll(t, before, a, env), finish, a, env);
    ExecConcat(t, before, finish, a, env);
    if n >= |FinishPart(a, env)| {
      var t' := ExecAll(t, before + finish, a, env);
      forall d | d in a.devices
        ensures exists p :: p in t'.progress && p.source == DoneSource(env.source) && p.device == IdOf(env, d)
      {
        assert MarkComplete(IdOf(env, d), Earliest(a.readings)) in finish;
        assert Progress(DoneSource(env.source), IdOf(env, d), Earliest(a.readings)) in t'.progress;
      }
    }
  }

  /** Where a killed attempt can have got to, and where a finished one is. */
  lemma RunShape(t: Target, a: Archive, env: Env, n: nat)
    requires Consistent(a, env)
    ensures var t' := ExecAll(t, Take(Program(a, env), n), a, env);
            && (StillLoading(t, t', a, env) || exists k :: Reached(t, t', a, env, k))
            && (n >= |Program(a, env)| ==> Reached(t, t', a, env, |Units(a, a.devices)|) && AllMarked(t', a, env))
  {
    hide LoadPart, Units, FinishPart, ExecAll, Exec, Emitted, RowsOf, OfTier, Replays, Reached, AllMarked;
    var load, us, finish := LoadPart(a, env), Units(a, a.devices), FinishPart(a, env);
    ProgramCut(a, env, n);
    FinishPartFinishes(a, env);
    assert |Program(a, env)| == |load| + |us| + |finish|;
    AfterReplay(t, a, env, if n >= |load| + |us| then n - |load| - |us| else 0);
    if n <= |load| {
      assert n < |Program(a, env)|;
      LoadPrefix(t, a, env, n);
    } else if n <= |load| + |us| {
      ChunkReached(t, a, env, n - |load|);
    }
  }

  lemma ChunkReached(t: Target, a: Archive, env: Env, k: nat)
    requires Consistent(a, env) && k <= |Units(a, a.devices)|
    ensures Reached(t, ExecAll(t, LoadPart(a, env) + Replays(Units(a, a.devices)[..k]), a, env), a, env, k)
  {
    hide LoadPart, Units, ExecAll, Exec, Emitted, RowsOf, OfTier, Replays, Keys;
    UpToChunk(t, a, env, k);
  }
}
