/** What every run of the backfill keeps, over any kills and restarts. */
module BackfillSafety {
  import opened Database
  import opened Spans
  import opened Replay
  import RefreshWindows
  import opened Backfill

  lemma {:induction false} ExecConcat(db: Db, x: seq<Statement>, y: seq<Statement>, m: Migration)
    ensures ExecAll(db, x + y, m) == ExecAll(ExecAll(db, x, m), y, m)
    decreases |x|
  {
    if x == [] {
      assert x + y == y;
    } else {
      assert (x + y)[1..] == x[1..] + y;
      ExecConcat(Exec(db, x[0], m), x[1..], y, m);
    }
  }

  lemma ExecSnoc(db: Db, sts: seq<Statement>, k: nat, m: Migration)
    requires k < |sts|
    ensures ExecAll(db, sts[..k + 1], m) == Exec(ExecAll(db, sts[..k], m), sts[k], m)
  {
    assert sts[..k + 1] == sts[..k] + [sts[k]];
    ExecConcat(db, sts[..k], [sts[k]], m);
    ExecOne(ExecAll(db, sts[..k], m), sts[k], m);
  }

  lemma ExecOne(db: Db, st: Statement, m: Migration)
    ensures ExecAll(db, [st], m) == Exec(db, st, m)
  {
    assert [st][1..] == [];
  }

  // ----- a statement that has run has nothing left to do ------------------------

  /** Executing the statement here changes nothing. */
  predicate Settled(db: Db, st: Statement, m: Migration) { Exec(db, st, m) == db }

  /** Only the last statement ends the migration, and no row is written once refreshing has begun. */
  predicate Orderly(sts: seq<Statement>) {
    && (forall i :: 0 <= i < |sts| - 1 && sts[i].SetStage? ==> sts[i].stage == Carried)
    && (forall i, j :: 0 <= i < j < |sts| && sts[i].RefreshWindow? ==> !sts[j].Commit?)
  }

  lemma RunIsSettled(db: Db, st: Statement, m: Migration)
    ensures Settled(Exec(db, st, m), st, m)
  {
  }

  lemma StaysSettled(db: Db, st: Statement, next: Statement, m: Migration)
    requires Settled(db, st, m)
    requires st.SetStage? && next.SetStage? ==> next == st
    requires st.RefreshWindow? ==> !next.Commit?
    ensures Settled(Exec(db, next, m), st, m)
  {
    match st
    case Commit(u) => assert KeyOf(u, m) in db.done;
    case SetStage(_) =>
    case RefreshWindow(tier, window) =>
      assert RefreshKey(tier, window, m) in db.done || Refresh(tier, window, |db.raw|) in db.refreshed;
    case RecordRefresh(tier, window) => assert RefreshKey(tier, window, m) in db.done;
  }

  lemma {:induction false} EarlierIsSettled(db: Db, sts: seq<Statement>, i: nat, k: nat, m: Migration)
    requires Orderly(sts) && i < k < |sts|
    ensures Settled(ExecAll(db, sts[..k], m), sts[i], m)
    decreases k
  {
    hide Exec, ExecAll, Settled;
    ExecSnoc(db, sts, k - 1, m);
    if i == k - 1 {
      RunIsSettled(ExecAll(db, sts[..i], m), sts[i], m);
    } else {
      EarlierIsSettled(db, sts, i, k - 1, m);
      StaysSettled(ExecAll(db, sts[..k - 1], m), sts[i], sts[k - 1], m);
    }
  }

  lemma {:induction false} SettledRun(db: Db, sts: seq<Statement>, m: Migration)
    requires forall i :: 0 <= i < |sts| ==> Settled(db, sts[i], m)
    ensures ExecAll(db, sts, m) == db
    decreases |sts|
  {
    if sts != [] {
      assert forall i :: 0 <= i < |sts[1..]| ==> sts[1..][i] == sts[i + 1];
      SettledRun(db, sts[1..], m);
    }
  }

  /** Starting over from where a run was killed reaches what the run itself would have reached. */
  lemma Resumes(db: Db, sts: seq<Statement>, k: nat, n: nat, m: Migration)
    requires Orderly(sts) && k < |sts| && n <= |sts|
    ensures ExecAll(ExecAll(db, sts[..k], m), sts[..n], m) == ExecAll(db, sts[..if n <= k then k else n], m)
  {
    var mid := ExecAll(db, sts[..k], m);
    forall i | 0 <= i < k ensures Settled(mid, sts[i], m) { EarlierIsSettled(db, sts, i, k, m); }
    if n <= k {
      SettledRun(mid, sts[..n], m);
    } else {
      SettledRun(mid, sts[..k], m);
      assert sts[..n] == sts[..k] + sts[k..n];
      ExecConcat(mid, sts[..k], sts[k..n], m);
      ExecConcat(db, sts[..k], sts[k..n], m);
    }
  }

  // ----- every attempt runs the same program -------------------------------------

  predicate WritesRows(st: Statement) { st.Commit? || st == SetStage(Carried) }

  predicate Refreshing(st: Statement) { st.RefreshWindow? || st.RecordRefresh? }

  lemma RowPartWrites(m: Migration, primary: string)
    ensures forall st :: st in RowPart(m, primary) ==> WritesRows(st)
  {
  }

  lemma {:induction false} TierRefreshesRefresh(span: Span, tiers: seq<Tier>, chunkMs: int)
    requires Raw !in tiers
    ensures forall st :: st in TierRefreshes(span, tiers, chunkMs) ==> Refreshing(st) && st.tier in tiers
  {
    if tiers != [] {
      RefreshesRefresh(tiers[0], RefreshWindows.Plan(span, tiers[0], chunkMs));
      TierRefreshesRefresh(span, tiers[1..], chunkMs);
    }
  }

  lemma {:induction false} RefreshesRefresh(tier: Tier, windows: seq<Span>)
    ensures forall st :: st in Refreshes(tier, windows) ==> Refreshing(st) && st.tier == tier
  {
    if windows != [] { RefreshesRefresh(tier, windows[1..]); }
  }

  lemma RefreshPartRefreshes(raw: seq<RawRow>, m: Migration)
    ensures forall st :: st in RefreshPart(raw, m) ==> Refreshing(st)
  {
    var span := WrittenSpan(raw, m.device);
    if span.Some? { TierRefreshesRefresh(span.value, REFRESH_ORDER, m.chunkMs); }
  }

  lemma ProgramIsOrderly(db: Db, m: Migration, primary: string)
    ensures Orderly(Program(db, m, primary))
  {
    var rows := RowPart(m, primary);
    var refreshes := RefreshPart(ExecAll(db, rows, m).raw, m);
    var all := Program(db, m, primary);
    RowPartWrites(m, primary);
    RefreshPartRefreshes(ExecAll(db, rows, m).raw, m);
    hide RowPart, RefreshPart, ExecAll;
    forall i | 0 <= i < |all|
      ensures if i < |rows| then WritesRows(all[i])
              else if i < |all| - 1 then Refreshing(all[i]) else all[i] == SetStage(Backfilled)
    {
      if i < |rows| { assert all[i] == rows[i]; }
      else if i < |all| - 1 { assert all[i] == refreshes[i - |rows|]; }
    }
  }

  lemma {:induction false} RefreshingKeepsRows(db: Db, sts: seq<Statement>, m: Migration)
    requires forall i :: 0 <= i < |sts| ==> !sts[i].Commit?
    ensures ExecAll(db, sts, m).raw == db.raw && ExecAll(db, sts, m).log == db.log
    decreases |sts|
  {
    if sts != [] {
      assert forall i :: 0 <= i < |sts[1..]| ==> sts[1..][i] == sts[i + 1];
      RefreshingKeepsRows(Exec(db, sts[0], m), sts[1..], m);
    }
  }

  /** The rows are all in by the end of the row part, wherever the run is from there on. */
  lemma RowsAreFinal(db: Db, m: Migration, primary: string, k: nat)
    requires |RowPart(m, primary)| <= k <= |Program(db, m, primary)|
    ensures ExecAll(db, Program(db, m, primary)[..k], m).raw == ExecAll(db, RowPart(m, primary), m).raw
    ensures ExecAll(db, Program(db, m, primary)[..k], m).log == ExecAll(db, RowPart(m, primary), m).log
  {
    var rows, all := RowPart(m, primary), Program(db, m, primary);
    RefreshPartRefreshes(ExecAll(db, rows, m).raw, m);
    hide RowPart, RefreshPart;
    var later := all[|rows|..k];
    assert all[..k] == rows + later;
    var refreshes := RefreshPart(ExecAll(db, rows, m).raw, m);
    forall i | 0 <= i < |later| ensures !later[i].Commit? {
      assert later[i] == (refreshes + [SetStage(Backfilled)])[i];
      if i < |refreshes| { assert refreshes[i] in refreshes; }
    }
    ExecConcat(db, rows, later, m);
    RefreshingKeepsRows(ExecAll(db, rows, m), later, m);
  }

  /** An attempt that picks up a killed run plans exactly the same statements. */
  lemma SameProgram(db: Db, m: Migration, primary: string, k: nat)
    requires k < |Program(db, m, primary)|
    ensures Program(ExecAll(db, Program(db, m, primary)[..k], m), m, primary) == Program(db, m, primary)
  {
    hide RowPart, RefreshPart;
    var rows, all := RowPart(m, primary), Program(db, m, primary);
    ProgramIsOrderly(db, m, primary);
    assert all[..|rows|] == rows;
    Resumes(db, all, k, |rows|, m);
    if k > |rows| { RowsAreFinal(db, m, primary, k); }
  }

  // ----- crash equivalence ----------------------------------------------------------

  lemma {:induction false} StaysActive(db: Db, sts: seq<Statement>, k: nat, m: Migration)
    requires Active(db, m) && Orderly(sts) && k < |sts|
    ensures Active(ExecAll(db, sts[..k], m), m)
  {
    if k > 0 {
      StaysActive(db, sts, k - 1, m);
      ExecSnoc(db, sts, k - 1, m);
    } else {
      assert sts[..0] == [];
    }
  }

  lemma NotEndedBefore(db: Db, m: Migration, k: nat)
    requires Active(db, m) && k < |Program(db, m, m.sourceId.value)|
    ensures Active(ExecAll(db, Program(db, m, m.sourceId.value)[..k], m), m)
  {
    hide Program;
    ProgramIsOrderly(db, m, m.sourceId.value);
    StaysActive(db, Program(db, m, m.sourceId.value), k, m);
  }

  lemma LastStage(db: Db, sts: seq<Statement>, m: Migration, stage: Stage)
    ensures ExecAll(db, sts + [SetStage(stage)], m).stage == stage
  {
    ExecConcat(db, sts, [SetStage(stage)], m);
    ExecOne(ExecAll(db, sts, m), SetStage(stage), m);
  }

  lemma Ended(db: Db, m: Migration)
    requires Active(db, m)
    ensures CleanRun(db, m).stage == Backfilled
  {
    hide RowPart, RefreshPart;
    var rows := RowPart(m, m.sourceId.value);
    var refreshes := RefreshPart(ExecAll(db, rows, m).raw, m);
    Regroup(rows, refreshes, [SetStage(Backfilled)]);
    hide ExecAll;
    LastStage(db, rows + refreshes, m, Backfilled);
  }

  /** Every reachable state is a state of the run that nothing interrupts. */
  lemma {:induction false} ReachableIsPrefix(db: Db, m: Migration, kills: seq<nat>) returns (k: nat)
    requires Active(db, m)
    ensures k <= |Program(db, m, m.sourceId.value)|
    ensures Attempts(db, m, kills) == ExecAll(db, Program(db, m, m.sourceId.value)[..k], m)
  {
    hide Program, Exec;
    var all := Program(db, m, m.sourceId.value);
    if kills == [] {
      k := 0;
    } else {
      var n := kills[|kills| - 1];
      k := ReachableIsPrefix(db, m, kills[..|kills| - 1]);
      if k < |all| {
        NotEndedBefore(db, m, k);
        SameProgram(db, m, m.sourceId.value, k);
        ProgramIsOrderly(db, m, m.sourceId.value);
        var reach := if n < |all| then n else |all|;
        assert Take(all, n) == all[..reach];
        Resumes(db, all, k, reach, m);
        k := if reach <= k then k else reach;
      } else {
        assert all[..k] == all;
        Ended(db, m);
      }
    }
  }

  /**
   * Crash equivalence: however often the backfill was killed and started again,
   * once it reports `backfilled` the database is the one that a single clean run
   * leaves. It reports that after any attempt that gets to its end.
   */
  lemma BackfillIsCrashEquivalent(db: Db, m: Migration, kills: seq<nat>)
    requires Active(db, m)
    ensures Attempts(db, m, kills).stage == Backfilled <==> Attempts(db, m, kills) == CleanRun(db, m)
    ensures Attempts(db, m, kills).stage !in {Verified, Dropped}
    ensures forall n :: n >= |Program(db, m, m.sourceId.value)| ==> Attempts(db, m, kills + [n]) == CleanRun(db, m)
  {
    var all := Program(db, m, m.sourceId.value);
    Ended(db, m);
    hide Program, Exec;
    var k := ReachableIsPrefix(db, m, kills);
    if k < |all| { NotEndedBefore(db, m, k); } else { assert all[..k] == all; }
    forall n | n >= |all| ensures Attempts(db, m, kills + [n]) == CleanRun(db, m) {
      AnAttemptToTheEnd(db, m, kills, n);
    }
  }

  lemma AnAttemptToTheEnd(db: Db, m: Migration, kills: seq<nat>, n: nat)
    requires Active(db, m) && n >= |Program(db, m, m.sourceId.value)|
    ensures Attempts(db, m, kills + [n]) == CleanRun(db, m)
  {
    var all := Program(db, m, m.sourceId.value);
    Ended(db, m);
    hide Program, Exec;
    var k := ReachableIsPrefix(db, m, kills);
    assert (kills + [n])[..|kills|] == kills;
    if k < |all| {
      NotEndedBefore(db, m, k);
      SameProgram(db, m, m.sourceId.value, k);
      ProgramIsOrderly(db, m, m.sourceId.value);
      assert Take(all, n) == all && all[..|all|] == all;
      Resumes(db, all, k, |all|, m);
    } else {
      assert all[..k] == all;
    }
  }

  // ----- when there is anything to do at all -----------------------------------------

  /** Every attempt of `k` statements or more comes to the end. */
  ghost predicate EndsWith(db: Db, m: Migration, kills: seq<nat>, k: nat) {
    forall n: nat :: n >= k ==> Attempts(db, m, kills + [n]).stage == Backfilled
  }

  /**
   * A migration that is under way, put off by the operator or not, is finished by every
   * attempt that lives long enough, after whatever was killed before; one that has not
   * begun or is over, or names no source, is not touched by any.
   */
  lemma RunsExactlyWhenUnderWay(db: Db, m: Migration, kills: seq<nat>)
    ensures m.sourceId.Some? && db.stage in {Cutover, Carried, Deferred} ==>
              exists k: nat :: EndsWith(db, m, kills, k)
    ensures m.sourceId.None? || db.stage in {NoMigration, Backfilled, Verified, Dropped} ==>
              Attempts(db, m, kills) == db
  {
    hide Program, Exec, Attempt;
    UnderWay(db, m);
    if m.sourceId.Some? && db.stage in {Cutover, Carried, Deferred} {
      BackfillIsCrashEquivalent(db, m, kills);
      Ended(db, m);
      assert EndsWith(db, m, kills, |Program(db, m, m.sourceId.value)|);
    }
    if m.sourceId.None? || db.stage in {NoMigration, Backfilled, Verified, Dropped} { NothingToDo(db, m, kills); }
  }

  lemma UnderWay(db: Db, m: Migration)
    ensures Active(db, m) <==> m.sourceId.Some? && db.stage in {Cutover, Carried, Deferred}
  {
    match db.stage
    case NoMigration =>
    case Cutover =>
    case Carried =>
    case Deferred =>
    case Backfilled =>
    case Verified =>
    case Dropped =>
  }

  lemma {:induction false} NothingToDo(db: Db, m: Migration, kills: seq<nat>)
    requires !Active(db, m)
    ensures Attempts(db, m, kills) == db
  {
    if kills != [] { NothingToDo(db, m, kills[..|kills| - 1]); }
  }
}
