/**
 * What a completion marker of the import promises: every row is in, every aggregate
 * has been refreshed over all of them, and no scratch table is left behind.
 */
module ImportCompletion {
  import opened Database
  import opened Spans
  import opened Replay
  import opened ExportRun
  import opened ArchiveImport
  import opened ImportSafety
  import opened ImportGuarantees

  /** Completion is recorded device by device, under a source that no chunk of the archive uses. */
  predicate Marker(p: Progress, a: Archive, env: Env) {
    p.source == env.source + "#done" && exists d :: d in a.devices && d in env.ids && env.ids[d] == p.device
  }

  predicate Marked(t: Target, a: Archive, env: Env) { exists p :: p in t.progress && Marker(p, a, env) }

  /** A scratch table of the archive is still there. */
  predicate StagingLeft(t: Target, a: Archive) {
    exists tier: Tier :: tier != Raw && tier in a.declared && tier in t.stage
  }

  // ----- what the aggregates have been asked for ------------------------------------------

  predicate Earlier(refreshed: seq<Refresh>, i: int, tier: Tier) {
    exists j :: 0 <= j < i && j < |refreshed| && refreshed[j].tier == tier
  }

  /** Days are built from hours, and hours from minutes. */
  predicate InTurn(refreshed: seq<Refresh>) {
    forall i :: 0 <= i < |refreshed| ==>
      && refreshed[i].tier != Raw
      && (refreshed[i].tier == Hourly ==> Earlier(refreshed, i, Minute))
      && (refreshed[i].tier == Daily ==> Earlier(refreshed, i, Hourly))
  }

  /** A day more than the readings at either end, no less and no more. */
  predicate Surrounds(window: Span, readings: seq<Reading>) {
    && (forall r :: r in readings ==> window.start + 86_400_000 <= r.time <= window.end - 86_400_000)
    && (exists r :: r in readings && r.time == window.start + 86_400_000)
    && (exists r :: r in readings && r.time == window.end - 86_400_000)
  }

  /** Each of them over the whole archive, with `rows` rows in the table. */
  predicate OfEverything(refreshed: seq<Refresh>, a: Archive, rows: nat) {
    forall i :: 0 <= i < |refreshed| ==> refreshed[i].seen == rows && Surrounds(refreshed[i].window, a.readings)
  }

  function Since(t: Target, end: Target): seq<Refresh>
    requires |t.refreshed| <= |end.refreshed|
  {
    end.refreshed[|t.refreshed|..]
  }

  predicate Refreshed(t: Target, end: Target, tier: Tier) {
    |t.refreshed| <= |end.refreshed| && exists i :: 0 <= i < |Since(t, end)| && Since(t, end)[i].tier == tier
  }

  // ----- the end of the program -------------------------------------------------------------

  lemma {:induction false} NothingRefreshed(t: Target, sts: seq<Statement>, a: Archive, env: Env)
    requires forall st :: st in sts ==> !st.RefreshTier?
    ensures ExecAll(t, sts, a, env).refreshed == t.refreshed
    decreases |sts|
  {
    if sts != [] {
      assert !sts[0].RefreshTier?;
      NothingRefreshed(Exec(t, sts[0], a, env), sts[1..], a, env);
    }
  }

  lemma {:induction false} DropsRun(t: Target, tiers: seq<Tier>, n: nat, a: Archive, env: Env)
    ensures var end := ExecAll(t, Take(Drops(tiers), n), a, env);
            && end.raw == t.raw && end.progress == t.progress && end.refreshed == t.refreshed
            && (forall tier :: tier in end.stage ==> tier in t.stage)
            && (n >= |tiers| ==> forall tier :: tier in tiers ==> tier !in end.stage)
    decreases |tiers|
  {
    if tiers != [] && n > 0 {
      assert Take(Drops(tiers), n)[1..] == Take(Drops(tiers[1..]), n - 1);
      DropsRun(Exec(t, DropStage(tiers[0]), a, env), tiers[1..], n - 1, a, env);
    }
  }

  function Three(window: Span, rows: nat): seq<Refresh> {
    [Refresh(Minute, window, rows), Refresh(Hourly, window, rows), Refresh(Daily, window, rows)]
  }

  lemma OneMore(t: Target, before: seq<Statement>, tier: Tier, window: Span, a: Archive, env: Env)
    ensures var now := ExecAll(t, before, a, env);
            ExecAll(t, before + [RefreshTier(tier, window)], a, env)
            == now.(refreshed := now.refreshed + [Refresh(tier, window, |now.raw|)])
  {
    var st := RefreshTier(tier, window);
    ExecConcat(t, before, [st], a, env);
    assert [st][1..] == [];
  }

  lemma RefreshesRun(t: Target, window: Span, n: nat, a: Archive, env: Env)
    ensures ExecAll(t, Take(RefreshAll(window), n), a, env)
         == t.(refreshed := t.refreshed + Take(Three(window, |t.raw|), n))
  {
    var all, three := RefreshAll(window), Three(window, |t.raw|);
    assert t.(refreshed := t.refreshed + []) == t;
    OneMore(t, [], Minute, window, a, env);
    OneMore(t, all[..1], Hourly, window, a, env);
    OneMore(t, all[..2], Daily, window, a, env);
    assert [] + [all[0]] == all[..1] && all[..1] + [all[1]] == all[..2] && all[..2] + [all[2]] == all;
    Regroup(t.refreshed, three[..1], [three[1]]);
    Regroup(t.refreshed, three[..2], [three[2]]);
    assert [three[0]] == three[..1] && three[..1] + [three[1]] == three[..2] && three[..2] + [three[2]] == three;
    assert Take(all, n) == if n == 0 then [] else if n == 1 then all[..1] else if n == 2 then all[..2] else all;
    assert Take(three, n) == if n == 0 then [] else if n == 1 then three[..1] else if n == 2 then three[..2] else three;
  }

  lemma {:induction false} MarksRun(t: Target, devices: seq<string>, n: nat, a: Archive, env: Env)
    requires a.readings != []
    ensures var end := ExecAll(t, Take(Marks(a, env, devices), n), a, env);
            && end.raw == t.raw && end.stage == t.stage && end.refreshed == t.refreshed && t.progress <= end.progress
            && (n == 0 ==> end.progress == t.progress)
            && (forall p :: p in end.progress && p !in t.progress ==>
                  p.source == env.source + "#done" && p.start == Earliest(a.readings)
                  && exists d :: d in devices && p.device == IdOf(env, d))
            && (n > 0 && devices != [] ==>
                  Progress(env.source + "#done", IdOf(env, devices[0]), Earliest(a.readings)) in end.progress)
            && (n == 1 && devices != [] ==>
                  end.progress
                  == t.progress + {Progress(env.source + "#done", IdOf(env, devices[0]), Earliest(a.readings))})
    decreases |devices|
  {
    if devices != [] && n > 0 {
      assert Take(Marks(a, env, devices), n)[1..] == Take(Marks(a, env, devices[1..]), n - 1);
      MarksRun(Exec(t, Marks(a, env, devices)[0], a, env), devices[1..], n - 1, a, env);
    }
  }

  /** The last part of an attempt, killed after `m` statements. */
  lemma FinishRuns(t: Target, m: nat, a: Archive, env: Env)
    requires a.readings != []
    ensures var end, k := ExecAll(t, Take(FinishPart(a, env), m), a, env), |StagedTiers(a)|;
            && end.raw == t.raw && t.progress <= end.progress
            && end.refreshed == t.refreshed + Take(Three(RefreshWindow(a), |t.raw|), Left(m, k))
            && (m <= k + 3 ==> end.progress == t.progress)
            && (m > k + 3 ==> forall tier :: tier in StagedTiers(a) ==> tier !in end.stage)
            && (forall p :: p in end.progress && p !in t.progress ==>
                  p.source == env.source + "#done" && p.start == Earliest(a.readings)
                  && exists d :: d in a.devices && p.device == IdOf(env, d))
            && (m == k + 4 && a.devices != [] ==>
                  end.progress
                  == t.progress + {Progress(env.source + "#done", IdOf(env, a.devices[0]), Earliest(a.readings))})
  {
    hide ExecAll, Exec, RefreshWindow, Three, Earliest, StagedTiers, IdOf;
    var k, tiers, window := |StagedTiers(a)|, StagedTiers(a), RefreshWindow(a);
    var marks := Marks(a, env, a.devices);
    var dropped := ExecAll(t, Take(Drops(tiers), m), a, env);
    DropsRun(t, tiers, m, a, env);
    TakeThen(t, Drops(tiers), RefreshAll(window) + marks, m, a, env);
    var n := Left(m, k);
    RefreshesRun(dropped, window, n, a, env);
    var now := ExecAll(dropped, Take(RefreshAll(window), n), a, env);
    TakeThen(dropped, RefreshAll(window), marks, n, a, env);
    MarksRun(now, a.devices, Left(n, 3), a, env);
  }

  /** Where a killed attempt was when it came to the last part, if it did. */
  lemma BeforeFinish(t: Target, a: Archive, env: Env, n: nat) returns (mid: Target, m: nat)
    requires Consistent(a, env)
    ensures ExecAll(t, Take(Program(a, env), n), a, env) == ExecAll(mid, Take(FinishPart(a, env), m), a, env)
    ensures mid.refreshed == t.refreshed
    ensures forall p :: p in mid.progress ==>
              p in t.progress || (p.source == env.source && p in Keys(Units(a, a.devices), env))
    ensures t.progress <= mid.progress
    ensures m > 0 ==> mid.raw == t.raw + Effective(t, a, env)
    ensures n == |LoadPart(a, env)| + |Units(a, a.devices)| + m || m == 0
    ensures n > |LoadPart(a, env)| + |Units(a, a.devices)| ==> m > 0
  {
    hide LoadPart, Units, ExecAll, Exec, Emitted, RowsOf, OfTier, FinishPart, Keys;
    var load, us := LoadPart(a, env), Units(a, a.devices);
    var replays := Replays(us);
    ProgramCut(a, env, n);
    LoadPartPuts(t, a, env);
    if n <= |load| {
      mid, m := ExecAll(t, load[..n], a, env), 0;
      LoadPrefix(t, a, env, n);
      assert forall st :: st in load[..n] ==> st in load;
      NothingRefreshed(t, load[..n], a, env);
    } else if n <= |load| + |us| {
      var k := n - |load|;
      mid, m := ExecAll(t, load + Replays(us[..k]), a, env), 0;
      UpToChunk(t, a, env, k);
      KeysAreChunks(us, k, env);
      NothingRefreshed(t, load + Replays(us[..k]), a, env);
    } else {
      mid, m := ExecAll(t, load + replays, a, env), n - |load| - |us|;
      UpToChunk(t, a, env, |us|);
      assert us[..|us|] == us;
      KeysAreChunks(us, |us|, env);
      NothingRefreshed(t, load + replays, a, env);
      ExecConcat(t, load + replays, Take(FinishPart(a, env), m), a, env);
    }
    if m == 0 { NoStatement(mid, FinishPart(a, env), a, env); }
  }

  lemma NoStatement(t: Target, sts: seq<Statement>, a: Archive, env: Env)
    ensures ExecAll(t, Take(sts, 0), a, env) == t
  {
  }

  lemma KeysAreChunks(us: seq<Unit>, k: nat, env: Env)
    requires k <= |us|
    ensures forall p :: p in Keys(us[..k], env) ==> p.source == env.source && p in Keys(us, env)
  {
  }

  lemma {:induction false} EarliestAndLatest(rs: seq<Reading>)
    requires rs != []
    ensures forall r :: r in rs ==> Earliest(rs) <= r.time <= Latest(rs)
  {
    if |rs| > 1 {
      EarliestAndLatest(rs[1..]);
      assert rs == [rs[0]] + rs[1..];
    }
  }

  lemma {:induction false} EarliestOccurs(rs: seq<Reading>)
    requires rs != []
    ensures exists r :: r in rs && r.time == Earliest(rs)
  {
    if |rs| == 1 || rs[0].time < Earliest(rs[1..]) {
      assert rs[0] in rs;
    } else {
      EarliestOccurs(rs[1..]);
      var r :| r in rs[1..] && r.time == Earliest(rs[1..]);
      assert r in rs;
    }
  }

  lemma {:induction false} LatestOccurs(rs: seq<Reading>)
    requires rs != []
    ensures exists r :: r in rs && r.time == Latest(rs)
  {
    if |rs| == 1 || rs[0].time > Latest(rs[1..]) {
      assert rs[0] in rs;
    } else {
      LatestOccurs(rs[1..]);
      var r :| r in rs[1..] && r.time == Latest(rs[1..]);
      assert r in rs;
    }
  }

  lemma WindowSurrounds(a: Archive)
    requires a.readings != []
    ensures Surrounds(RefreshWindow(a), a.readings)
  {
    EarliestAndLatest(a.readings);
    EarliestOccurs(a.readings);
    LatestOccurs(a.readings);
  }

  lemma MarkedIsMarked(t: Target, a: Archive, env: Env)
    requires Consistent(a, env)
    ensures Marked(t, a, env) <==> SomeDeviceMarked(t, a, env)
  {
    if Marked(t, a, env) {
      var p :| p in t.progress && Marker(p, a, env);
      var d :| d in a.devices && d in env.ids && env.ids[d] == p.device;
      assert IdOf(env, d) in DeviceIds(a, env);
    }
    if SomeDeviceMarked(t, a, env) {
      var p :| p in t.progress && p.source == DoneSource(env.source) && p.device in DeviceIds(a, env);
      var d :| d in a.devices && IdOf(env, d) == p.device;
      assert Marker(p, a, env);
    }
  }

  // ----- over every run -----------------------------------------------------------------------

  lemma NextInTurn(before: seq<Refresh>, window: Span, rows: nat, n: nat)
    requires InTurn(before)
    ensures InTurn(before + Take(Three(window, rows), n))
  {
    var all := before + Take(Three(window, rows), n);
    forall i | 0 <= i < |all|
      ensures all[i].tier != Raw
      ensures all[i].tier == Hourly ==> Earlier(all, i, Minute)
      ensures all[i].tier == Daily ==> Earlier(all, i, Hourly)
    {
      if i < |before| {
        assert all[i] == before[i];
        if before[i].tier == Hourly {
          var j :| 0 <= j < i && before[j].tier == Minute;
          assert all[j] == before[j];
        } else if before[i].tier == Daily {
          var j :| 0 <= j < i && before[j].tier == Hourly;
          assert all[j] == before[j];
        }
      } else if i > |before| {
        assert all[i - 1] == Three(window, rows)[i - 1 - |before|];
      }
    }
  }

  /** Some of the three refreshes on top of others. */
  lemma MoreInTurn(t: Target, mid: Target, end: Target, a: Archive, window: Span, rows: nat, n: nat, total: nat)
    requires |t.refreshed| <= |mid.refreshed| && InTurn(Since(t, mid)) && OfEverything(Since(t, mid), a, total)
    requires end.refreshed == mid.refreshed + Take(Three(window, rows), n)
    requires Surrounds(window, a.readings) && (n > 0 ==> rows == total)
    ensures |t.refreshed| <= |end.refreshed| && InTurn(Since(t, end)) && OfEverything(Since(t, end), a, total)
    ensures Refreshed(t, mid, Daily) || n >= 3 ==> Refreshed(t, end, Daily)
  {
    hide InTurn, Surrounds, OfEverything, Three;
    var more := Take(Three(window, rows), n);
    assert Since(t, end) == Since(t, mid) + more;
    NextInTurn(Since(t, mid), window, rows, n);
    ThreeOfEverything(window, rows, n, a, total);
    BothOfEverything(Since(t, mid), more, a, total);
    if Refreshed(t, mid, Daily) {
      var i :| 0 <= i < |Since(t, mid)| && Since(t, mid)[i].tier == Daily;
      assert Since(t, end)[i].tier == Daily;
    }
    if n >= 3 { assert Since(t, end)[|Since(t, mid)| + 2] == more[2]; }
  }

  lemma ThreeOfEverything(window: Span, rows: nat, n: nat, a: Archive, total: nat)
    requires Surrounds(window, a.readings) && (n > 0 ==> rows == total)
    ensures OfEverything(Take(Three(window, rows), n), a, total)
    ensures n >= 3 ==> |Take(Three(window, rows), n)| == 3 && Take(Three(window, rows), n)[2].tier == Daily
  {
    hide Surrounds;
  }

  lemma BothOfEverything(before: seq<Refresh>, more: seq<Refresh>, a: Archive, total: nat)
    requires OfEverything(before, a, total) && OfEverything(more, a, total)
    ensures OfEverything(before + more, a, total)
  {
    hide Surrounds;
  }

  /** What every reachable target has asked of its aggregates. */
  predicate AggregatesSound(t: Target, end: Target, a: Archive, env: Env) {
    && |t.refreshed| <= |end.refreshed| && InTurn(Since(t, end))
    && OfEverything(Since(t, end), a, |t.raw| + |Complete(a, env)|)
    && (Marked(end, a, env) ==> Refreshed(t, end, Daily))
  }

  /** An attempt that got `m` statements into the last part. */
  lemma AggregatesAfter(t: Target, mid: Target, last: Target, m: nat, a: Archive, env: Env)
    requires a.readings != [] && AggregatesSound(t, mid, a, env) && last.refreshed == mid.refreshed
    requires m > 0 ==> |last.raw| == |t.raw| + |Complete(a, env)|
    ensures var end := ExecAll(last, Take(FinishPart(a, env), m), a, env);
            && |t.refreshed| <= |end.refreshed| && InTurn(Since(t, end))
            && OfEverything(Since(t, end), a, |t.raw| + |Complete(a, env)|)
            && (Refreshed(t, mid, Daily) || m > |StagedTiers(a)| + 3 ==> Refreshed(t, end, Daily))
  {
    hide ExecAll, Complete, InTurn, FinishPart, RefreshWindow, StagedTiers, Earliest, Marked, Three, Since, Refreshed;
    hide Surrounds, OfEverything;
    var end := ExecAll(last, Take(FinishPart(a, env), m), a, env);
    FinishRuns(last, m, a, env);
    WindowSurrounds(a);
    MoreInTurn(t, mid, end, a, RefreshWindow(a), |last.raw|, Left(m, |StagedTiers(a)|), |t.raw| + |Complete(a, env)|);
  }

  lemma AggregatesStep(t: Target, mid: Target, a: Archive, env: Env, n: nat)
    requires Consistent(a, env) && Sound(t, mid, a, env) && AggregatesSound(t, mid, a, env)
    ensures AggregatesSound(t, Attempt(mid, a, env, n), a, env)
  {
    hide Preflight, Program, ExecAll, Units, Complete, Effective, InTurn, OfEverything, FinishPart, LoadPart,
      StagedTiers, Sound, Consistent, Marker, Since, Refreshed;
    if Preflight(mid, a, env, false) == Proceed {
      var end := Attempt(mid, a, env, n);
      CleanAndComplete(t, mid, a, env);
      var last, m := BeforeFinish(mid, a, env, n);
      HasReadings(a, env);
      AggregatesAfter(t, mid, last, m, a, env);
      if Marked(end, a, env) {
        var p :| p in end.progress && Marker(p, a, env);
        MarkerIsNoChunk(p, a, env);
        FinishRuns(last, m, a, env);
        if p in mid.progress { assert Marked(mid, a, env); }
      }
    }
  }

  lemma CleanAndComplete(t: Target, mid: Target, a: Archive, env: Env)
    requires Consistent(a, env) && Sound(t, mid, a, env) && Preflight(mid, a, env, false) == Proceed
    ensures mid.raw == t.raw && Effective(mid, a, env) == Complete(a, env)
  {
    hide Preflight, Units, RowsOf, OfTier, AllRows, Emitted, DoneAreEmpty;
    StillClean(t, mid, a, env);
    SoundIsEmpty(t, mid, a, env);
    EffectiveIsComplete(mid, a, env);
  }

  lemma SoundIsEmpty(t: Target, mid: Target, a: Archive, env: Env)
    requires Sound(t, mid, a, env) && mid.raw == t.raw
    ensures DoneAreEmpty(Units(a, a.devices), mid.progress, a, env)
  {
  }

  lemma HasReadings(a: Archive, env: Env)
    requires Consistent(a, env)
    ensures a.readings != []
  {
  }

  lemma MarkerIsNoChunk(p: Progress, a: Archive, env: Env)
    requires Marker(p, a, env)
    ensures p.source == env.source + "#done" != env.source
  {
  }

  lemma {:induction false} EveryRunIsInTurn(t: Target, a: Archive, env: Env, kills: seq<nat>)
    requires Consistent(a, env) && Unseen(t, a, env)
    ensures AggregatesSound(t, Attempts(t, a, env, kills), a, env)
  {
    if kills == [] {
      MarkedIsMarked(t, a, env);
    } else {
      hide Sound, Unseen, Consistent, Attempt, AggregatesSound;
      EveryRunIsInTurn(t, a, env, kills[..|kills| - 1]);
      EveryRunIsSound(t, a, env, kills[..|kills| - 1]);
      AggregatesStep(t, Attempts(t, a, env, kills[..|kills| - 1]), a, env, kills[|kills| - 1]);
    }
  }

  lemma EarlierInTurn(refreshed: seq<Refresh>, i: nat)
    requires InTurn(refreshed) && i < |refreshed| && refreshed[i].tier == Daily
    ensures Earlier(refreshed, |refreshed|, Hourly) && Earlier(refreshed, |refreshed|, Minute)
  {
    var j :| 0 <= j < i && refreshed[j].tier == Hourly;
    var k :| 0 <= k < j && refreshed[k].tier == Minute;
  }

  /**
   * Completion comes last. However often the import was killed and started again, once a
   * marker of the archive is there, all of its rows are in, and minutes, hours and days
   * have each been refreshed, in this order, over the whole archive and all of its rows.
   */
  lemma CompletionIsLast(t: Target, a: Archive, env: Env, kills: seq<nat>)
    requires Consistent(a, env) && Unseen(t, a, env) && Marked(Attempts(t, a, env, kills), a, env)
    ensures var end := Attempts(t, a, env, kills);
            && end.raw == t.raw + Complete(a, env)
            && Refreshed(t, end, Minute) && Refreshed(t, end, Hourly) && Refreshed(t, end, Daily)
            && InTurn(Since(t, end)) && OfEverything(Since(t, end), a, |end.raw|)
  {
    hide Attempts, Complete, Marked, InTurn, OfEverything;
    var end := Attempts(t, a, env, kills);
    EveryRunIsInTurn(t, a, env, kills);
    EveryRunIsSound(t, a, env, kills);
    MarkedIsMarked(end, a, env);
    var i :| 0 <= i < |Since(t, end)| && Since(t, end)[i].tier == Daily;
    EarlierInTurn(Since(t, end), i);
  }

  // ----- what is recorded on the way -----------------------------------------------------------

  /** A chunk is recorded under the archive's source, its device and its own start. */
  predicate ChunkMark(p: Progress, a: Archive, env: Env) {
    p.source == env.source
    && exists u :: u in Units(a, a.devices) && u.slug in env.ids && p.device == env.ids[u.slug]
                   && p.start == u.chunk.span.start
  }

  /** A device's completion is recorded at the archive's oldest reading. */
  predicate DoneMark(p: Progress, a: Archive, env: Env) {
    && Marker(p, a, env)
    && (exists r :: r in a.readings && r.time == p.start)
    && forall r :: r in a.readings ==> p.start <= r.time
  }

  lemma KeyIsChunkMark(p: Progress, a: Archive, env: Env)
    requires Consistent(a, env) && p in Keys(Units(a, a.devices), env)
    ensures ChunkMark(p, a, env)
  {
    UnitsStaged(a, env, a.devices);
    var u :| u in Units(a, a.devices) && KeyOf(u, env) == p;
    assert u.slug in a.devices;
  }

  lemma NewIsDoneMark(p: Progress, a: Archive, env: Env, d: string)
    requires Consistent(a, env) && p.source == env.source + "#done" && p.start == Earliest(a.readings)
    requires d in a.devices && p.device == IdOf(env, d)
    ensures DoneMark(p, a, env)
  {
    EarliestOccurs(a.readings);
    EarliestAndLatest(a.readings);
    assert d in env.ids;
  }

  /** Whatever any run records that was not there is the mark of a chunk or of a finished device. */
  lemma {:induction false} RecordsAre(t: Target, a: Archive, env: Env, kills: seq<nat>)
    requires Consistent(a, env)
    ensures forall p :: p in Attempts(t, a, env, kills).progress ==>
              p in t.progress || ChunkMark(p, a, env) || DoneMark(p, a, env)
  {
    hide Preflight, Program, ExecAll, Units, FinishPart, LoadPart, RefreshWindow, StagedTiers, Earliest, Keys;
    hide Consistent, ChunkMark, DoneMark, Effective;
    if kills != [] {
      var mid := Attempts(t, a, env, kills[..|kills| - 1]);
      RecordsAre(t, a, env, kills[..|kills| - 1]);
      if Preflight(mid, a, env, false) == Proceed {
        var last, m := BeforeFinish(mid, a, env, kills[|kills| - 1]);
        HasReadings(a, env);
        FinishRuns(last, m, a, env);
        forall p | p in Attempts(t, a, env, kills).progress && p !in mid.progress
          ensures ChunkMark(p, a, env) || DoneMark(p, a, env)
        {
          if p in last.progress {
            KeyIsChunkMark(p, a, env);
          } else {
            var d :| d in a.devices && p.device == IdOf(env, d);
            NewIsDoneMark(p, a, env, d);
          }
        }
      }
    }
  }

  // ----- scratch tables ------------------------------------------------------------------------

  /** Whatever was killed when: behind a marker of the archive no scratch table of it is left. */
  ghost predicate NoScratch(t: Target, a: Archive, env: Env)
    requires Consistent(a, env)
  {
    forall kills ::
      Marked(Attempts(t, a, env, kills), a, env) ==> !StagingLeft(Attempts(t, a, env, kills), a)
  }

  lemma StagedAreDeclared(a: Archive)
    ensures forall tier: Tier :: tier in StagedTiers(a) <==> tier in a.declared && tier != Raw
  {
    BucketTiersKnown(a.declared, BUCKETS);
    assert forall tier: Tier :: tier != Raw ==> tier in BUCKETS;
  }

  lemma OneDeviceIsAll(t: Target, a: Archive, env: Env)
    requires Consistent(a, env) && |a.devices| == 1 && Marked(t, a, env)
    ensures AllMarked(t, a, env)
  {
    var p :| p in t.progress && Marker(p, a, env);
    var d :| d in a.devices && d in env.ids && env.ids[d] == p.device;
    assert forall e :: e in a.devices ==> e == a.devices[0];
  }

  lemma RowsBlock(t: Target, a: Archive, env: Env, raw: seq<RawRow>)
    requires Consistent(a, env) && Complete(a, env) != [] && t.raw == raw + Complete(a, env)
    ensures Preflight(t, a, env, false) != Proceed
  {
    hide Complete, Preflight, OfArchive, RowsOf, Units;
    CompleteIsKept(a, env);
    var row := Complete(a, env)[0];
    assert row in multiset(Complete(a, env));
    assert row in multiset(RowsOf(a.readings, env));
    ArchiveRow(a, env, row);
    assert t.raw[|raw|] == row;
    ProceedsExactly(t, a, env);
  }

  /** After a marker no attempt proceeds any more, when there are rows or only one device. */
  lemma {:induction false} MarkedIsOver(t: Target, a: Archive, env: Env, kills: seq<nat>)
    requires Consistent(a, env) && Unseen(t, a, env) && (Complete(a, env) != [] || |a.devices| == 1)
    requires Marked(Attempts(t, a, env, kills), a, env)
    ensures Preflight(Attempts(t, a, env, kills), a, env, false) != Proceed
  {
    hide Attempts, Complete, Preflight, Marked;
    var end := Attempts(t, a, env, kills);
    if Complete(a, env) != [] {
      CompletionIsLast(t, a, env, kills);
      RowsBlock(end, a, env, t.raw);
    } else {
      OneDeviceIsAll(end, a, env);
      AllMarkedSkips(end, a, env);
    }
  }

  /** An attempt that leaves the first marker has dropped the scratch tables before. */
  lemma FirstMarkIsAfterDrop(mid: Target, a: Archive, env: Env, n: nat)
    requires Consistent(a, env) && !Marked(mid, a, env) && Marked(Attempt(mid, a, env, n), a, env)
    ensures !StagingLeft(Attempt(mid, a, env, n), a)
  {
    hide Preflight, Program, ExecAll, Effective, FinishPart, LoadPart, Units, Earliest, RefreshWindow, Marker;
    var end := Attempt(mid, a, env, n);
    var last, m := BeforeFinish(mid, a, env, n);
    HasReadings(a, env);
    FinishRuns(last, m, a, env);
    StagedAreDeclared(a);
    var p :| p in end.progress && Marker(p, a, env);
    MarkerIsNoChunk(p, a, env);
    assert p !in mid.progress;
  }

  lemma {:induction false} NothingIsLeft(t: Target, a: Archive, env: Env, kills: seq<nat>)
    requires Consistent(a, env) && Unseen(t, a, env) && (Complete(a, env) != [] || |a.devices| == 1)
    ensures Marked(Attempts(t, a, env, kills), a, env) ==> !StagingLeft(Attempts(t, a, env, kills), a)
  {
    hide Complete, Preflight, Marked, Unseen, StagingLeft, Consistent, Program, ExecAll;
    if kills == [] {
      MarkedIsMarked(t, a, env);
      UnseenIsUnmarked(t, a, env);
    } else {
      var before, n := kills[..|kills| - 1], kills[|kills| - 1];
      var mid := Attempts(t, a, env, before);
      NothingIsLeft(t, a, env, before);
      if Marked(mid, a, env) {
        MarkedIsOver(t, a, env, before);
      } else if Marked(Attempt(mid, a, env, n), a, env) {
        FirstMarkIsAfterDrop(mid, a, env, n);
      }
    }
  }

  lemma UnseenIsUnmarked(t: Target, a: Archive, env: Env)
    requires Unseen(t, a, env)
    ensures !SomeDeviceMarked(t, a, env)
  {
  }

  /** Rows of somebody else in the span: nothing is ever done. */
  lemma {:induction false} NeverStarts(t: Target, a: Archive, env: Env, kills: seq<nat>)
    requires Consistent(a, env) && OverlappingRows(t, a, env) > 0
    ensures Attempts(t, a, env, kills) == t
  {
    OverlapExactly(t, a, env);
    ProceedsExactly(t, a, env);
    hide Preflight;
    if kills != [] { NeverStarts(t, a, env, kills[..|kills| - 1]); }
  }

  /** Up to and including the first marker. */
  function ToFirstMark(a: Archive, env: Env): nat
    requires a.readings != []
  {
    |LoadPart(a, env)| + |Units(a, a.devices)| + |StagedTiers(a)| + 4
  }

  lemma UnseenProceeds(t: Target, a: Archive, env: Env)
    requires Consistent(a, env) && Unseen(t, a, env) && OverlappingRows(t, a, env) == 0
    ensures Preflight(t, a, env, false) == Proceed
  {
    hide Preflight;
    OverlapExactly(t, a, env);
    ProceedsExactly(t, a, env);
    assert Recorded(t, DoneSource(env.source), DeviceIds(a, env)) == {};
    SomeDevice(a, env);
  }

  /** The first attempt is killed right after the first of several markers. */
  lemma OneOfSeveralMarked(t: Target, a: Archive, env: Env)
    requires Consistent(a, env) && Unseen(t, a, env) && OverlappingRows(t, a, env) == 0
    requires Complete(a, env) == [] && |a.devices| > 1
    ensures var end := Attempt(t, a, env, ToFirstMark(a, env));
            Marked(end, a, env) && Preflight(end, a, env, false) == Proceed
  {
    hide Preflight, Program, ExecAll, FinishPart, LoadPart, Units, RefreshWindow, Complete, Earliest, CountRows,
      StagedTiers, OfArchive;
    var end, n := Attempt(t, a, env, ToFirstMark(a, env)), ToFirstMark(a, env);
    UnseenProceeds(t, a, env);
    UnseenIsSound(t, a, env);
    CleanAndComplete(t, t, a, env);
    var last, m := BeforeFinish(t, a, env, n);
    FinishRuns(last, m, a, env);
    var mark := Progress(env.source + "#done", IdOf(env, a.devices[0]), Earliest(a.readings));
    assert a.devices[0] in a.devices && Marker(mark, a, env);
    assert end.raw == t.raw;
    OnlyMark(t, end, mark, a, env);
    SeveralIds(a, env);
    OverlapExactly(t, a, env);
    ProceedsExactly(end, a, env);
  }

  lemma OnlyMark(t: Target, end: Target, mark: Progress, a: Archive, env: Env)
    requires Unseen(t, a, env)
    requires forall p :: p in end.progress ==> p in t.progress || p.source == env.source || p == mark
    ensures |Recorded(end, DoneSource(env.source), DeviceIds(a, env))| <= 1
  {
    var recorded := Recorded(end, DoneSource(env.source), DeviceIds(a, env));
    assert recorded <= {mark};
    if recorded != {} { assert recorded == {mark}; }
  }

  lemma SeveralIds(a: Archive, env: Env)
    requires Consistent(a, env) && |a.devices| > 1
    ensures |DeviceIds(a, env)| > 1
  {
    var d, e := a.devices[0], a.devices[1];
    assert d in a.devices && e in a.devices && d != e;
    var x, y := IdOf(env, d), IdOf(env, e);
    assert x in DeviceIds(a, env) && y in DeviceIds(a, env) && x != y;
    FewerIn({x, y}, DeviceIds(a, env));
  }

  /** The attempt after that starts with a scratch table again. */
  lemma ScratchAgain(t: Target, a: Archive, env: Env)
    requires Consistent(a, env) && Preflight(t, a, env, false) == Proceed && !(a.declared <= {Raw})
    ensures var end := Attempt(t, a, env, 2); StagingLeft(end, a) && end.progress == t.progress
  {
    hide Preflight, Load, ReplayPart, FinishPart;
    StagedAreDeclared(a);
    var extra :| extra in a.declared && extra != Raw;
    assert extra in StagedTiers(a);
    var tiers := StagedTiers(a);
    var first := [DropStage(tiers[0]), CreateStage(tiers[0])];
    assert SetUp(tiers) == first + SetUp(tiers[1..]);
    assert Take(Program(a, env), 2) == first;
    ExecTwo(t, first[0], first[1], a, env);
    assert tiers[0] in tiers;
  }

  /**
   * Scratch tables, exactly: no marker ever stands beside one, if and only if the import
   * has a row to write, or one device only, or no bucket tier, or never starts at all.
   */
  lemma NoScratchExactly(t: Target, a: Archive, env: Env)
    requires Consistent(a, env) && Unseen(t, a, env)
    ensures NoScratch(t, a, env)
       <==> Complete(a, env) != [] || |a.devices| == 1 || a.declared <= {Raw} || OverlappingRows(t, a, env) > 0
  {
    hide Complete, Attempts, OverlappingRows, Unseen, Marked, Preflight;
    SomeDeviceListed(a, env);
    if OverlappingRows(t, a, env) > 0 {
      MarkedIsMarked(t, a, env);
      UnseenIsUnmarked(t, a, env);
      forall kills ensures Attempts(t, a, env, kills) == t { NeverStarts(t, a, env, kills); }
    } else if Complete(a, env) != [] || |a.devices| == 1 {
      forall kills ensures Marked(Attempts(t, a, env, kills), a, env) ==> !StagingLeft(Attempts(t, a, env, kills), a) {
        NothingIsLeft(t, a, env, kills);
      }
    } else if !(a.declared <= {Raw}) {
      OneOfSeveralMarked(t, a, env);
      var n := ToFirstMark(a, env);
      var first := Attempt(t, a, env, n);
      ScratchAgain(first, a, env);
      TwoAttempts(t, a, env, n, 2);
      SameMarks(first, Attempt(first, a, env, 2), a, env);
      assert !NoScratch(t, a, env);
    }
  }

  lemma SameMarks(x: Target, y: Target, a: Archive, env: Env)
    requires x.progress == y.progress
    ensures Marked(x, a, env) <==> Marked(y, a, env)
  {
  }

  lemma TwoAttempts(t: Target, a: Archive, env: Env, n: nat, k: nat)
    requires Consistent(a, env)
    ensures Attempts(t, a, env, [n, k]) == Attempt(Attempt(t, a, env, n), a, env, k)
  {
    hide Attempt;
    assert [n, k][..1] == [n] && [n][..0] == [];
    assert Attempts(t, a, env, [n]) == Attempt(t, a, env, n);
  }

  lemma SomeDeviceListed(a: Archive, env: Env)
    requires Consistent(a, env)
    ensures |a.devices| > 0
  {
    assert a.readings[0] in a.readings;
  }
}
