/**
 * `importArchive` of packages/db/src/archive-import.ts as it runs: statement after
 * statement against the database, until it is done or the process is killed.
 */
module ImportRun {
  import opened Wrappers
  import opened Database
  import opened Spans
  import opened Replay
  import opened ExportRun
  import opened ArchiveImport
  import opened ImportSafety
  import ArchiveLoad

  // ----- the lines of the file and the readings of the protocol ----------------

  /** The readings that the lines hold, under their target's device names. */
  function Decoded(lines: seq<ArchiveLoad.Line>, deviceMap: map<string, string>): seq<Reading> {
    if lines == [] then []
    else
      var before, line := Decoded(lines[..|lines| - 1], deviceMap), lines[|lines| - 1];
      if line.Row? then before + [ArchiveLoad.Mapped(line.reading, deviceMap)] else before
  }

  lemma {:induction false} DecodedByTier(lines: seq<ArchiveLoad.Line>, deviceMap: map<string, string>, tier: Tier)
    ensures OfTier(Decoded(lines, deviceMap), tier) == ArchiveLoad.TierRows(lines, tier, deviceMap)
  {
    if lines != [] {
      var before, line := lines[..|lines| - 1], lines[|lines| - 1];
      DecodedByTier(before, deviceMap, tier);
      if line.Row? {
        OfTierSnoc(Decoded(before, deviceMap), ArchiveLoad.Mapped(line.reading, deviceMap), tier);
      }
    }
  }

  /**
   * The loader that reads lines and the load of the protocol fill the same tables:
   * what the loader hands to a tier's writer is what the protocol's inserts put into
   * that tier's relation.
   */
  lemma LoaderFillsTheSame(lines: seq<ArchiveLoad.Line>, deviceMap: map<string, string>, size: nat, tier: Tier)
    ensures ArchiveLoad.TierRows(lines, tier, deviceMap) == Put(Load(Decoded(lines, deviceMap), map[], size), tier)
  {
    DecodedByTier(lines, deviceMap, tier);
    LoadPuts(Decoded(lines, deviceMap), map[], size, tier);
  }

  /** A load that no line stops holds only readings of declared tiers, as `Consistent` asks. */
  lemma {:induction false} LoadableLines(lines: seq<ArchiveLoad.Line>, declared: set<Tier>,
                                         deviceMap: map<string, string>)
    requires ArchiveLoad.FirstProblem(lines, declared) == None
    ensures forall r :: r in Decoded(lines, deviceMap) ==> r.tier == Raw || r.tier in declared
    ensures forall i :: 0 <= i < |lines| ==> !lines[i].Unreadable?
  {
    if lines != [] {
      var before := lines[..|lines| - 1];
      LoadableLines(before, declared, deviceMap);
      assert forall i :: 0 <= i < |before| ==> before[i] == lines[i];
    }
  }

  class Importer {
    const a: Archive
    const env: Env
    var db: Target
    /** Statements the process has left before it is killed. */
    var budget: nat

    constructor (a: Archive, env: Env, db: Target, budget: nat)
      ensures this.a == a && this.env == env && this.db == db && this.budget == budget
    {
      this.a, this.env, this.db, this.budget := a, env, db, budget;
    }

    /** The run has executed `sts` from `t` with `n` statements left, as far as that allows. */
    ghost predicate Ran(t: Target, n: nat, sts: seq<Statement>)
      reads this
    {
      db == ExecAll(t, Take(sts, n), a, env) && budget == Left(n, |sts|)
    }

    /** Part of the way through `sts`: what is left to do is `rest`. */
    ghost predicate Doing(t: Target, n: nat, sts: seq<Statement>, rest: seq<Statement>)
      reads this
    {
      && |rest| <= |sts| && budget == Left(n, |sts| - |rest|)
      && ExecAll(db, Take(rest, budget), a, env) == ExecAll(t, Take(sts, n), a, env)
    }

    method Do(st: Statement, ghost t: Target, ghost n: nat, ghost sts: seq<Statement>, ghost rest: seq<Statement>)
      requires Doing(t, n, sts, [st] + rest)
      modifies this
      ensures db == (if old(budget) > 0 then Exec(old(db), st, a, env) else old(db)) && Doing(t, n, sts, rest)
    {
      if budget > 0 {
        assert Take([st] + rest, budget)[1..] == Take(rest, budget - 1);
        db := Exec(db, st, a, env);
        budget := budget - 1;
      }
    }

    method CreateStaging()
      modifies this
      ensures Ran(old(db), old(budget), SetUp(StagedTiers(a)))
    {
      hide ExecAll, Exec;
      var tiers := StagedTiers(a);
      ghost var t, n, all := db, budget, SetUp(tiers);
      for i := 0 to |tiers|
        invariant Doing(t, n, all, SetUp(tiers[i..]))
      {
        ghost var rest := SetUp(tiers[i + 1..]);
        assert tiers[i..][1..] == tiers[i + 1..];
        assert SetUp(tiers[i..]) == [DropStage(tiers[i])] + ([CreateStage(tiers[i])] + rest);
        Do(DropStage(tiers[i]), t, n, all, [CreateStage(tiers[i])] + rest);
        Do(CreateStage(tiers[i]), t, n, all, rest);
      }
      NothingLeft(t, n, all);
    }

    /** One pass over the readings: each tier batched on its own, the last batches flushed at the end. */
    method LoadReadings()
      modifies this
      ensures Ran(old(db), old(budget), Load(a.readings, map[], env.batchRows))
    {
      hide ExecAll, Exec, Flush;
      var pending: map<Tier, seq<Reading>> := map[];
      ghost var t, n, all := db, budget, Load(a.readings, map[], env.batchRows);
      for i := 0 to |a.readings|
        invariant Doing(t, n, all, Load(a.readings[i..], pending, env.batchRows))
      {
        var r := a.readings[i];
        assert a.readings[i..][0] == r && a.readings[i..][1..] == a.readings[i + 1..];
        var batch := Pending(pending, r.tier) + [r];
        if |batch| >= env.batchRows {
          Do(Insert(r.tier, batch), t, n, all, Load(a.readings[i + 1..], pending[r.tier := []], env.batchRows));
          batch := [];
        }
        pending := pending[r.tier := batch];
      }
      FlushAll(pending, t, n, all);
    }

    method FlushAll(pending: map<Tier, seq<Reading>>, ghost t: Target, ghost n: nat, ghost all: seq<Statement>)
      requires Doing(t, n, all, Flush(pending, [Raw] + BUCKETS))
      modifies this
      ensures Ran(t, n, all)
    {
      hide ExecAll, Exec;
      var tiers := [Raw] + BUCKETS;
      for i := 0 to |tiers|
        invariant Doing(t, n, all, Flush(pending, tiers[i..]))
      {
        assert tiers[i..][0] == tiers[i] && tiers[i..][1..] == tiers[i + 1..];
        var rows := Pending(pending, tiers[i]);
        ghost var rest := Flush(pending, tiers[i + 1..]);
        if rows == [] {
          assert Flush(pending, tiers[i..]) == rest;
        } else {
          assert Flush(pending, tiers[i..]) == [Insert(tiers[i], rows)] + rest;
          Do(Insert(tiers[i], rows), t, n, all, rest);
        }
      }
      NothingLeft(t, n, all);
    }

    /** What each staging table holds of one device. */
    method ReadWindows(slug: string) returns (windows: seq<Window>)
      requires FullyStaged(db, a)
      ensures windows == DeviceWindows(a, slug)
    {
      hide StageWindows, OfTier, OfDevice, Earliest, Latest, BucketWidthMs;
      var tiers := StagedTiers(a);
      BucketTiersKnown(a.declared, BUCKETS);
      windows := [];
      for i := 0 to |tiers|
        invariant windows + StageWindows(a.readings, slug, tiers[i..]) == DeviceWindows(a, slug)
      {
        assert tiers[i] in tiers;
        var mine := OfDevice(Staged(db, tiers[i]), slug);
        WindowsStep(tiers, i, slug);
        ghost var later := StageWindows(a.readings, slug, tiers[i + 1..]);
        if mine != [] {
          var window := Window(tiers[i], Earliest(mine), Latest(mine) + BucketWidthMs(tiers[i]));
          Regroup(windows, [window], later);
          windows := windows + [window];
        }
      }
      WindowsEnd(tiers, slug);
    }

    lemma WindowsStep(tiers: seq<Tier>, i: nat, slug: string)
      requires i < |tiers| && Raw !in tiers
      ensures var mine, later := OfDevice(OfTier(a.readings, tiers[i]), slug), StageWindows(a.readings, slug,
          tiers[i + 1..]);
              StageWindows(a.readings, slug, tiers[i..])
              == if mine == [] then later
                 else [Window(tiers[i], Earliest(mine), Latest(mine) + BucketWidthMs(tiers[i]))] + later
    {
      assert tiers[i..][0] == tiers[i] && tiers[i..][1..] == tiers[i + 1..];
    }

    lemma WindowsEnd(tiers: seq<Tier>, slug: string)
      requires Raw !in tiers
      ensures StageWindows(a.readings, slug, tiers[|tiers|..]) == []
    {
    }

    method PlanDevice(slug: string) returns (chunks: seq<Chunk>)
      requires FullyStaged(db, a)
      ensures chunks == ChunksOf(DevicePieces(a, slug))
    {
      var windows := ReadWindows(slug);
      if windows == [] { return []; }
      var plan := PlanReplay(FirstFrom(windows), LastTo(windows), windows);
      return plan.chunks;
    }

    /** The staged buckets become raw rows, one device after the other, one transaction a chunk. */
    method ReplayStaged()
      requires Consistent(a, env) && (budget > 0 ==> FullyStaged(db, a))
      modifies this
      ensures Ran(old(db), old(budget), ReplayPart(a))
    {
      hide ExecAll, Exec, DevicePieces, FullyStaged, Consistent;
      ghost var t, n, all := db, budget, ReplayPart(a);
      for i := 0 to |a.devices|
        invariant Doing(t, n, all, Replays(Units(a, a.devices[i..])))
        invariant budget > 0 ==> FullyStaged(db, a)
      {
        if budget == 0 { Killed(t, n, all, Replays(Units(a, a.devices[i..]))); return; }
        assert a.devices[i..][0] == a.devices[i] && a.devices[i..][1..] == a.devices[i + 1..];
        var chunks := PlanDevice(a.devices[i]);
        DeviceUnitsStaged(a, env, a.devices[i]);
        ReplaysConcat(UnitsFor(a.devices[i], chunks), Units(a, a.devices[i + 1..]));
        ReplayDevice(a.devices[i], chunks, t, n, all, Replays(Units(a, a.devices[i + 1..])));
      }
      NothingLeft(t, n, all);
    }

    method ReplayDevice(slug: string, chunks: seq<Chunk>,
                        ghost t: Target, ghost n: nat, ghost all: seq<Statement>, ghost later: seq<Statement>)
      requires FromStages(UnitsFor(slug, chunks), a) && (budget > 0 ==> FullyStaged(db, a))
      requires Doing(t, n, all, Replays(UnitsFor(slug, chunks)) + later)
      modifies this
      ensures Doing(t, n, all, later) && (budget > 0 ==> FullyStaged(db, a))
    {
      hide ExecAll, Exec, FullyStaged, UnitsFor, Replays;
      for j := 0 to |chunks|
        invariant Doing(t, n, all, Replays(UnitsFor(slug, chunks[j..])) + later)
        invariant budget > 0 ==> FullyStaged(db, a)
      {
        ghost var rest := Replays(UnitsFor(slug, chunks[j + 1..])) + later;
        ChunkStep(slug, chunks, j, later);
        assert UnitsFor(slug, chunks)[j] == Unit(slug, chunks[j]);
        if budget > 0 { CommitChunk(db, Unit(slug, chunks[j]), a, env); }
        Do(ReplayChunk(Unit(slug, chunks[j])), t, n, all, rest);
      }
      assert Replays(UnitsFor(slug, chunks[|chunks|..])) + later == later;
    }

    lemma ChunkStep(slug: string, chunks: seq<Chunk>, j: nat, later: seq<Statement>)
      requires j < |chunks|
      ensures Replays(UnitsFor(slug, chunks[j..])) + later
           == [ReplayChunk(Unit(slug, chunks[j]))] + (Replays(UnitsFor(slug, chunks[j + 1..])) + later)
    {
      assert chunks[j..][0] == chunks[j] && chunks[j..][1..] == chunks[j + 1..];
    }

    lemma Killed(t: Target, n: nat, sts: seq<Statement>, rest: seq<Statement>)
      requires Doing(t, n, sts, rest) && budget == 0
      ensures Ran(t, n, sts)
    {
    }

    /** Staging is dropped, the aggregates refreshed, and only then is completion recorded, device by device. */
    method Finish()
      requires a.readings != []
      modifies this
      ensures Ran(old(db), old(budget), FinishPart(a, env))
    {
      hide ExecAll, Exec, Marks, RefreshAll, Drops;
      ghost var t, n, all := db, budget, FinishPart(a, env);
      ghost var marks := Marks(a, env, a.devices);
      var window := Span(Earliest(a.readings) - DAY_MS, Latest(a.readings) + DAY_MS);
      DropStaging(t, n, all, RefreshAll(window) + marks);
      RefreshAggregates(window, t, n, all, marks);
      WriteCompletionMarkers(t, n, all);
    }

    method DropStaging(ghost t: Target, ghost n: nat, ghost all: seq<Statement>, ghost later: seq<Statement>)
      requires Doing(t, n, all, Drops(StagedTiers(a)) + later)
      modifies this
      ensures Doing(t, n, all, later)
    {
      hide ExecAll, Exec;
      var tiers := StagedTiers(a);
      for i := 0 to |tiers|
        invariant Doing(t, n, all, Drops(tiers[i..]) + later)
      {
        assert tiers[i..][0] == tiers[i] && tiers[i..][1..] == tiers[i + 1..];
        assert Drops(tiers[i..]) + later == [DropStage(tiers[i])] + (Drops(tiers[i + 1..]) + later);
        Do(DropStage(tiers[i]), t, n, all, Drops(tiers[i + 1..]) + later);
      }
      assert Drops(tiers[|tiers|..]) + later == later;
    }

    method RefreshAggregates(window: Span, ghost t: Target, ghost n: nat, ghost all: seq<Statement>,
                             ghost marks: seq<Statement>)
      requires Doing(t, n, all, RefreshAll(window) + marks)
      modifies this
      ensures Doing(t, n, all, marks)
    {
      hide ExecAll, Exec;
      var tiers := [Minute, Hourly, Daily];
      ghost var last := [RefreshTier(Daily, window)] + marks;
      assert RefreshAll(window) + marks == [RefreshTier(Minute, window)] + ([RefreshTier(Hourly, window)] + last);
      for i := 0 to |tiers|
        invariant Doing(t, n, all,
                        (if i == 0 then [RefreshTier(Minute, window)] + ([RefreshTier(Hourly, window)] + last)
                         else if i == 1 then [RefreshTier(Hourly, window)] + last
                         else if i == 2 then last else marks))
      {
        Do(RefreshTier(tiers[i], window), t, n, all,
           if i == 0 then [RefreshTier(Hourly, window)] + last else if i == 1 then last else marks);
      }
    }

    method WriteCompletionMarkers(ghost t: Target, ghost n: nat, ghost all: seq<Statement>)
      requires a.readings != [] && Doing(t, n, all, Marks(a, env, a.devices))
      modifies this
      ensures Ran(t, n, all)
    {
      hide ExecAll, Exec;
      for i := 0 to |a.devices|
        invariant Doing(t, n, all, Marks(a, env, a.devices[i..]))
      {
        assert a.devices[i..][0] == a.devices[i] && a.devices[i..][1..] == a.devices[i + 1..];
        Do(MarkComplete(IdOf(env, a.devices[i]), Earliest(a.readings)), t, n, all, Marks(a, env, a.devices[i + 1..]));
      }
      NothingLeft(t, n, all);
    }

    /** The whole attempt: decide, load, replay, finish. */
    method ImportArchive() returns (verdict: Verdict)
      requires Consistent(a, env)
      modifies this
      ensures verdict == Preflight(old(db), a, env, false)
      ensures db == Attempt(old(db), a, env, old(budget))
    {
      hide ExecAll, Exec, Preflight, Load, SetUp, ReplayPart, FinishPart, FullyStaged;
      verdict := Preflight(db, a, env, false);
      if verdict != Proceed { return; }
      ghost var t, n := db, budget;
      CreateStaging();
      LoadReadings();
      TakeThen(t, SetUp(StagedTiers(a)), Load(a.readings, map[], env.batchRows), n, a, env);
      if budget > 0 { LoadedIsStaged(t, n); }
      ReplayStaged();
      TakeThen(t, LoadPart(a, env), ReplayPart(a), n, a, env);
      Finish();
      TakeThen(t, LoadPart(a, env) + ReplayPart(a), FinishPart(a, env), n, a, env);
      assert LoadPart(a, env) + ReplayPart(a) + FinishPart(a, env) == Program(a, env);
    }

    lemma LoadedIsStaged(t: Target, n: nat)
      requires Ran(t, n, LoadPart(a, env)) && budget > 0
      ensures FullyStaged(db, a)
    {
      forall tier: Tier | tier in a.declared && tier != Raw ensures Staged(db, tier) == OfTier(a.readings, tier) {
        LoadFills(t, a, env, tier);
      }
    }

    lemma ReplaysConcat(x: seq<Unit>, y: seq<Unit>)
      ensures Replays(x + y) == Replays(x) + Replays(y)
    {
    }

    lemma NothingLeft(t: Target, n: nat, sts: seq<Statement>)
      requires Doing(t, n, sts, [])
      ensures Ran(t, n, sts)
    {
    }
  }
}
