/**
 * `runBackfill` of packages/db/src/backfill-run.ts as it runs: statement after
 * statement against the database, until it is done or the process is killed.
 */
module BackfillRun {
  import opened Database
  import opened Spans
  import opened Replay
  import RefreshWindows
  import opened Backfill
  import opened BackfillSafety

  class Driver {
    const m: Migration
    var db: Db
    /** Statements the process has left before it is killed. */
    var budget: nat

    constructor (m: Migration, db: Db, budget: nat)
      ensures this.m == m && this.db == db && this.budget == budget
    {
      this.m, this.db, this.budget := m, db, budget;
    }

    /** Part of the way through `sts` from `t`, with `rest` still to do. */
    ghost predicate Doing(t: Db, n: nat, sts: seq<Statement>, rest: seq<Statement>)
      reads this
    {
      && |rest| <= |sts| && sts[|sts| - |rest|..] == rest
      && budget == Left(n, |sts| - |rest|)
      && db == ExecAll(t, Take(sts[..|sts| - |rest|], n), m)
    }

    method Do(st: Statement, ghost t: Db, ghost n: nat, ghost sts: seq<Statement>, ghost rest: seq<Statement>)
      requires Doing(t, n, sts, [st] + rest)
      modifies this
      ensures db == (if old(budget) > 0 then Exec(old(db), st, m) else old(db)) && Doing(t, n, sts, rest)
    {
      ghost var used := |sts| - |rest| - 1;
      assert sts[used..][0] == st && sts[used..][1..] == sts[used + 1..] == rest;
      ExecSnoc(t, sts, used, m);
      if budget > 0 {
        db := Exec(db, st, m);
        budget := budget - 1;
      } else {
        assert Take(sts[..used + 1], n) == Take(sts[..used], n);
      }
    }

    /** One transaction a chunk; a chunk that carries a watermark is skipped. */
    method CommitAll(us: seq<Unit>, ghost t: Db, ghost n: nat, ghost sts: seq<Statement>, ghost later: seq<Statement>)
      requires Doing(t, n, sts, Commits(us) + later)
      modifies this
      ensures Doing(t, n, sts, later)
    {
      hide ExecAll, Exec, Commits;
      for i := 0 to |us|
        invariant Doing(t, n, sts, Commits(us[i..]) + later)
      {
        CommitsFirst(us, i, later);
        Do(Commit(us[i]), t, n, sts, Commits(us[i + 1..]) + later);
      }
      assert Commits(us[|us|..]) + later == later;
    }

    lemma CommitsFirst(us: seq<Unit>, i: nat, later: seq<Statement>)
      requires i < |us|
      ensures Commits(us[i..]) + later == [Commit(us[i])] + (Commits(us[i + 1..]) + later)
    {
      assert us[i..][0] == us[i] && us[i..][1..] == us[i + 1..];
    }

    method CarryLegacyRaw(primary: string, ghost t: Db, ghost n: nat, ghost sts: seq<Statement>,
                          ghost later: seq<Statement>)
      requires m.rawFrom.Some? && Doing(t, n, sts, Commits(CarryPart(m, primary)) + later)
      modifies this
      ensures Doing(t, n, sts, later)
    {
      var mine := OfId(m.legacyRaw, primary);
      var chunks: seq<Chunk> := [];
      if mine != [] {
        var window := Window(Minute, First(mine), Last(mine) + BucketWidthMs(Minute));
        var plan := PlanReplay(window.from, window.to, [window]);
        chunks := plan.chunks;
      }
      hide ExecAll, Exec, OfId, First, Last, ReplayPieces;
      CommitAll(CarryUnits(m, primary, chunks), t, n, sts, later);
    }

    method PlanId(id: string) returns (chunks: seq<Chunk>)
      ensures chunks == IdChunks(m, id)
    {
      var windows := TierWindows(m, id, TIERS);
      if windows == [] { return []; }
      var latest := LastTo(windows);
      var end := if m.replayTo.Some? then Min(m.replayTo.value, latest) else latest;
      var plan := PlanReplay(FirstFrom(windows), end, windows);
      return plan.chunks;
    }

    /** One pass per source id, each under a watermark of its own. */
    method ReplayEverySource(primary: string, ghost t: Db, ghost n: nat, ghost sts: seq<Statement>,
        ghost later: seq<Statement>)
      requires Doing(t, n, sts, Commits(ReplayPart(m, primary)) + later)
      modifies this
      ensures Doing(t, n, sts, later)
    {
      hide ExecAll, Exec, IdChunks, Commits;
      var ids := SourceOrder(m, primary);
      assert ids[0..] == ids;
      for i := 0 to |ids|
        invariant Doing(t, n, sts, Commits(ReplayUnits(m, ids[i..], primary)) + later)
      {
        assert ids[i..][0] == ids[i] && ids[i..][1..] == ids[i + 1..];
        var chunks := PlanId(ids[i]);
        var units := BucketUnits(m, ids[i], primary, chunks);
        ghost var rest := ReplayUnits(m, ids[i + 1..], primary);
        CommitsConcat(units, rest, later);
        CommitAll(units, t, n, sts, Commits(rest) + later);
      }
      assert Commits(ReplayUnits(m, ids[|ids|..], primary)) + later == later;
    }

    lemma CommitsConcat(x: seq<Unit>, y: seq<Unit>, later: seq<Statement>)
      ensures Commits(x + y) + later == Commits(x) + (Commits(y) + later)
    {
      assert Commits(x + y) == Commits(x) + Commits(y);
    }

    /** Each tier over the span of what landed, hours before days, a window recorded once it is refreshed. */
    method RefreshTiers(span: Span, ghost t: Db, ghost n: nat, ghost sts: seq<Statement>, ghost later: seq<Statement>)
      requires Doing(t, n, sts, TierRefreshes(span, REFRESH_ORDER, m.chunkMs) + later)
      modifies this
      ensures Doing(t, n, sts, later)
    {
      hide ExecAll, Exec, Refreshes;
      assert REFRESH_ORDER[0..] == REFRESH_ORDER;
      for i := 0 to |REFRESH_ORDER|
        invariant Doing(t, n, sts, TierRefreshes(span, REFRESH_ORDER[i..], m.chunkMs) + later)
      {
        var tier := REFRESH_ORDER[i];
        ghost var rest := TierRefreshes(span, REFRESH_ORDER[i + 1..], m.chunkMs) + later;
        assert REFRESH_ORDER[i..][0] == tier && REFRESH_ORDER[i..][1..] == REFRESH_ORDER[i + 1..];
        var windows := RefreshWindows.RefreshWindows(span, tier, m.chunkMs);
        Regroup(Refreshes(tier, windows), TierRefreshes(span, REFRESH_ORDER[i + 1..], m.chunkMs), later);
        RefreshTier(tier, windows, t, n, sts, rest);
      }
      assert TierRefreshes(span, REFRESH_ORDER[|REFRESH_ORDER|..], m.chunkMs) + later == later;
    }

    method RefreshTier(tier: Tier, windows: seq<Span>,
                       ghost t: Db, ghost n: nat, ghost sts: seq<Statement>, ghost later: seq<Statement>)
      requires Doing(t, n, sts, Refreshes(tier, windows) + later)
      modifies this
      ensures Doing(t, n, sts, later)
    {
      hide ExecAll, Exec;
      for i := 0 to |windows|
        invariant Doing(t, n, sts, Refreshes(tier, windows[i..]) + later)
      {
        ghost var rest := Refreshes(tier, windows[i + 1..]) + later;
        assert windows[i..][0] == windows[i] && windows[i..][1..] == windows[i + 1..];
        assert Refreshes(tier, windows[i..]) + later
            == [RefreshWindow(tier, windows[i])] + ([RecordRefresh(tier, windows[i])] + rest);
        Do(RefreshWindow(tier, windows[i]), t, n, sts, [RecordRefresh(tier, windows[i])] + rest);
        Do(RecordRefresh(tier, windows[i]), t, n, sts, rest);
      }
      assert Refreshes(tier, windows[|windows|..]) + later == later;
    }

    /** The whole attempt; `false` when there is no migration to finish. */
    method RunBackfill() returns (ran: bool)
      modifies this
      ensures ran <==> m.sourceId.Some? && old(db).stage in {Cutover, Carried, Deferred}
      ensures db == Attempt(old(db), m, old(budget))
    {
      hide ExecAll, Exec, Commits, CarryPart, ReplayPart, TierRefreshes, WrittenSpan;
      UnderWay(db, m);
      if m.sourceId.None? || db.stage in {NoMigration, Backfilled, Verified, Dropped} { return false; }
      var primary := m.sourceId.value;
      ghost var t, n, all := db, budget, Program(db, m, primary);
      ghost var rows := RowPart(m, primary);
      ghost var landed := ExecAll(db, rows, m);
      ghost var last := RefreshPart(landed.raw, m) + [SetStage(Backfilled)];
      ghost var replays := Commits(ReplayPart(m, primary)) + last;
      Started(all);
      if m.rawFrom.Some? {
        CarryFirst(primary, last);
        CarryLegacyRaw(primary, t, n, all, [SetStage(Carried)] + replays);
        Do(SetStage(Carried), t, n, all, replays);
      } else {
        NoCarry(primary, last);
      }
      ReplayEverySource(primary, t, n, all, last);
      if budget == 0 { Killed(t, n, all, last); return true; }
      RowsLanded(t, n, rows, last);
      var span := WrittenSpan(db.raw, m.device);
      if span.Some? {
        RefreshTiers(span.value, t, n, all, [SetStage(Backfilled)]);
      } else {
        assert last == [SetStage(Backfilled)];
      }
      assert [SetStage(Backfilled)] + [] == [SetStage(Backfilled)];
      Do(SetStage(Backfilled), t, n, all, []);
      Finished(t, n, all);
      ran := true;
    }

    lemma Started(sts: seq<Statement>)
      ensures Doing(db, budget, sts, sts)
    {
      assert sts[..0] == [] && sts[0..] == sts;
    }

    lemma CarryFirst(primary: string, last: seq<Statement>)
      requires m.rawFrom.Some?
      ensures RowPart(m, primary) + last
           == Commits(CarryPart(m, primary)) + ([SetStage(Carried)] + (Commits(ReplayPart(m, primary)) + last))
    {
      hide CarryPart, ReplayPart, Commits;
    }

    lemma NoCarry(primary: string, last: seq<Statement>)
      requires m.rawFrom.None?
      ensures RowPart(m, primary) + last == Commits(ReplayPart(m, primary)) + last
    {
      NoCommits(primary);
      hide *;
      RowPartIs(primary);
      NothingInFront(Commits(ReplayPart(m, primary)));
    }

    lemma RowPartIs(primary: string)
      requires m.rawFrom.None?
      ensures RowPart(m, primary) == Commits(CarryPart(m, primary)) + [] + Commits(ReplayPart(m, primary))
    {
      hide CarryPart, ReplayPart, Commits;
    }

    lemma NothingInFront(sts: seq<Statement>)
      ensures [] + [] + sts == sts
    {
    }

    lemma NoCommits(primary: string)
      requires m.rawFrom.None?
      ensures Commits(CarryPart(m, primary)) == []
    {
      hide ReplayPart;
    }

    lemma Killed(t: Db, n: nat, sts: seq<Statement>, rest: seq<Statement>)
      requires Doing(t, n, sts, rest) && budget == 0
      ensures db == ExecAll(t, Take(sts, n), m)
    {
      assert Take(sts[..|sts| - |rest|], n) == Take(sts, n);
    }

    lemma Finished(t: Db, n: nat, sts: seq<Statement>)
      requires Doing(t, n, sts, [])
      ensures db == ExecAll(t, Take(sts, n), m)
    {
      assert sts[..|sts|] == sts;
    }

    /** A process that is still alive after the row part has executed all of it. */
    lemma RowsLanded(t: Db, n: nat, rows: seq<Statement>, last: seq<Statement>)
      requires Doing(t, n, rows + last, last) && budget > 0
      ensures db == ExecAll(t, rows, m)
    {
      assert (rows + last)[..|rows|] == rows;
    }
  }
}
