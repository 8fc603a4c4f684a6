/** The guarantees of the import over every sequence of killed and restarted attempts. */
module ImportGuarantees {
  import opened Database
  import opened Spans
  import opened Replay
  import opened ExportRun
  import opened ArchiveImport
  import opened ImportSafety

  // ----- what a complete import writes --------------------------------------

  /** Raw readings in file order, then each device's chunks. */
  function Complete(a: Archive, env: Env): seq<RawRow> {
    RowsOf(OfTier(a.readings, Raw), env) + AllRows(Units(a, a.devices), a.readings, a.configKeys, env)
  }

  /** The readings an import keeps: raw ones, and those of the tier that answers their instant. */
  function Kept(rs: seq<Reading>, us: seq<Unit>, config: set<string>): seq<Reading> {
    if rs == [] then []
    else
      var before, r := Kept(rs[..|rs| - 1], us, config), rs[|rs| - 1];
      if r.tier == Raw || SelHits(us, r, config) > 0 then before + [r] else before
  }

  function Times(rows: seq<RawRow>, row: RawRow): nat { multiset(rows)[row] }

  lemma RowsSnoc(rs: seq<Reading>, r: Reading, env: Env, row: RawRow)
    ensures Times(RowsOf(rs + [r], env), row) == Times(RowsOf(rs, env), row) + if RowOf(r, env) == row then 1 else 0
  {
    assert (rs + [r])[..|rs|] == rs;
    assert RowsOf(rs + [r], env) == RowsOf(rs, env) + [RowOf(r, env)];
  }

  lemma {:induction false} AllRowsSnoc(us: seq<Unit>, rs: seq<Reading>, r: Reading, config: set<string>, env: Env,
      row: RawRow)
    ensures Times(AllRows(us, rs + [r], config, env), row)
         == Times(AllRows(us, rs, config, env), row) + if RowOf(r, env) == row then SelHits(us, r, config) else 0
  {
    if us != [] {
      var u := us[0];
      AllRowsSnoc(us[1..], rs, r, config, env, row);
      assert (rs + [r])[..|rs|] == rs;
      RowsSnoc(Selected(rs, u, config), r, env, row);
    }
  }

  lemma RawSnoc(rs: seq<Reading>, r: Reading, env: Env, row: RawRow)
    ensures Times(RowsOf(OfTier(rs + [r], Raw), env), row)
         == Times(RowsOf(OfTier(rs, Raw), env), row) + if r.tier == Raw && RowOf(r, env) == row then 1 else 0
  {
    OfTierSnoc(rs, r, Raw);
    if r.tier == Raw {
      RowsSnoc(OfTier(rs, Raw), r, env, row);
    } else {
      assert OfTier(rs + [r], Raw) == OfTier(rs, Raw);
    }
  }

  lemma KeptSnoc(rs: seq<Reading>, r: Reading, us: seq<Unit>, config: set<string>, env: Env, row: RawRow)
    ensures Times(RowsOf(Kept(rs + [r], us, config), env), row)
         == Times(RowsOf(Kept(rs, us, config), env), row)
            + if (r.tier == Raw || SelHits(us, r, config) > 0) && RowOf(r, env) == row then 1 else 0
  {
    assert (rs + [r])[..|rs|] == rs;
    if r.tier == Raw || SelHits(us, r, config) > 0 { RowsSnoc(Kept(rs, us, config), r, env, row); }
  }

  predicate SelectedOnce(us: seq<Unit>, rs: seq<Reading>, config: set<string>) {
    forall i :: 0 <= i < |rs| ==> SelHits(us, rs[i], config) <= if rs[i].tier == Raw then 0 else 1
  }

  lemma {:induction false} RowsAreKept(us: seq<Unit>, rs: seq<Reading>, config: set<string>, env: Env, row: RawRow)
    requires SelectedOnce(us, rs, config)
    ensures Times(RowsOf(OfTier(rs, Raw), env), row) + Times(AllRows(us, rs, config, env), row)
         == Times(RowsOf(Kept(rs, us, config), env), row) <= Times(RowsOf(rs, env), row)
  {
    if rs == [] {
      NothingSelected(us, config, env);
    } else {
      hide RowsOf, OfTier, AllRows, SelHits, RowOf, Times, Kept;
      var before, r := rs[..|rs| - 1], rs[|rs| - 1];
      assert rs == before + [r];
      assert SelectedOnce(us, before, config) by { assert forall i :: 0 <= i < |before| ==> before[i] == rs[i]; }
      RowsAreKept(us, before, config, env, row);
      RowsSnoc(before, r, env, row);
      KeptSnoc(before, r, us, config, env, row);
      AllRowsSnoc(us, before, r, config, env, row);
      RawSnoc(before, r, env, row);
    }
  }

  lemma {:induction false} NothingSelected(us: seq<Unit>, config: set<string>, env: Env)
    ensures AllRows(us, [], config, env) == []
  {
    if us != [] { NothingSelected(us[1..], config, env); }
  }

  /** A complete import carries each kept reading exactly once, and nothing else. */
  lemma CompleteIsKept(a: Archive, env: Env)
    requires Consistent(a, env)
    ensures multiset(Complete(a, env)) == multiset(RowsOf(Kept(a.readings, Units(a, a.devices), a.configKeys), env))
    ensures multiset(Complete(a, env)) <= multiset(RowsOf(a.readings, env))
  {
    hide RowsOf, OfTier, AllRows, Kept, Units, SelHits;
    var us := Units(a, a.devices);
    forall i | 0 <= i < |a.readings|
      ensures SelHits(us, a.readings[i], a.configKeys) <= if a.readings[i].tier == Raw then 0 else 1
    {
      EachReadingSelectedOnce(a, a.devices, a.readings[i]);
    }
    forall row ensures multiset(Complete(a, env))[row] == multiset(RowsOf(Kept(a.readings, us, a.configKeys), env))[row]
                    && multiset(Complete(a, env))[row] <= multiset(RowsOf(a.readings, env))[row] {
      RowsAreKept(us, a.readings, a.configKeys, env, row);
    }
  }

  // ----- a row that has arrived blocks every later attempt -------------------

  lemma {:induction false} RowsComeFromReadings(rs: seq<Reading>, env: Env, row: RawRow)
    requires row in RowsOf(rs, env)
    ensures exists r :: r in rs && RowOf(r, env) == row
  {
    var before := rs[..|rs| - 1];
    if row in RowsOf(before, env) {
      RowsComeFromReadings(before, env, row);
      var r :| r in before && RowOf(r, env) == row;
      assert r in rs;
    }
  }

  lemma {:induction false} RowIsCounted(raw: seq<RawRow>, devices: set<int>, span: Span, i: nat)
    requires i < |raw| && raw[i].device in devices && span.Holds(raw[i].time)
    ensures CountRows(raw, devices, span) > 0
  {
    if i < |raw| - 1 { RowIsCounted(raw[..|raw| - 1], devices, span, i); }
  }

  lemma {:induction false} CountedRowExists(raw: seq<RawRow>, devices: set<int>, span: Span)
    requires CountRows(raw, devices, span) > 0
    ensures exists i :: 0 <= i < |raw| && raw[i].device in devices && span.Holds(raw[i].time)
  {
    var last := raw[|raw| - 1];
    if !(last.device in devices && span.Holds(last.time)) {
      CountedRowExists(raw[..|raw| - 1], devices, span);
      var i :| 0 <= i < |raw| - 1 && raw[..|raw| - 1][i].device in devices && span.Holds(raw[..|raw| - 1][i].time);
      assert raw[i].device in devices && span.Holds(raw[i].time);
    } else {
      assert raw[|raw| - 1].device in devices;
    }
  }

  predicate OfArchive(row: RawRow, a: Archive, env: Env) {
    row.device in DeviceIds(a, env) && a.span.Some? && a.span.value.Holds(row.time)
  }

  lemma ArchiveRow(a: Archive, env: Env, row: RawRow)
    requires Consistent(a, env) && row in RowsOf(a.readings, env)
    ensures OfArchive(row, a, env)
  {
    RowsComeFromReadings(a.readings, env, row);
    var r :| r in a.readings && RowOf(r, env) == row;
    assert IdOf(env, r.series.device) in DeviceIds(a, env);
  }

  lemma OverlapExactly(t: Target, a: Archive, env: Env)
    requires Consistent(a, env)
    ensures OverlappingRows(t, a, env) == 0 <==> forall i :: 0 <= i < |t.raw| ==> !OfArchive(t.raw[i], a, env)
  {
    var ids, span := DeviceIds(a, env), a.span.value;
    forall i | 0 <= i < |t.raw| && OfArchive(t.raw[i], a, env) ensures CountRows(t.raw, ids, span) > 0 {
      RowIsCounted(t.raw, ids, span, i);
    }
    if CountRows(t.raw, ids, span) > 0 {
      CountedRowExists(t.raw, ids, span);
      var i :| 0 <= i < |t.raw| && t.raw[i].device in ids && span.Holds(t.raw[i].time);
      assert OfArchive(t.raw[i], a, env);
    }
  }

  /**
   * An unforced attempt proceeds exactly when some device of the archive is not
   * marked complete and the target holds no row of its devices in its span.
   */
  lemma ProceedsExactly(t: Target, a: Archive, env: Env)
    requires Consistent(a, env)
    ensures Preflight(t, a, env, false) == Proceed
       <==> |Recorded(t, DoneSource(env.source), DeviceIds(a, env))| < |DeviceIds(a, env)|
            && forall i :: 0 <= i < |t.raw| ==> !OfArchive(t.raw[i], a, env)
  {
    SomeDevice(a, env);
    hide OfArchive, CountRows, DeviceIds, Recorded;
    OverlapExactly(t, a, env);
  }

  lemma SomeDevice(a: Archive, env: Env)
    requires Consistent(a, env)
    ensures |DeviceIds(a, env)| > 0
  {
    assert a.readings[0] in a.readings;
    assert IdOf(env, a.readings[0].series.device) in DeviceIds(a, env);
  }

  /** What is recorded of the archive's devices under a source. */
  function RecordedOf(t: Target, source: string, a: Archive, env: Env): set<Progress> {
    set p | p in t.progress && p.source == source
            && exists d :: d in a.devices && d in env.ids && env.ids[d] == p.device
  }

  lemma RecordedAre(t: Target, source: string, a: Archive, env: Env)
    requires Consistent(a, env)
    ensures Recorded(t, source, DeviceIds(a, env)) == RecordedOf(t, source, a, env)
  {
    var mine, theirs := Recorded(t, source, DeviceIds(a, env)), RecordedOf(t, source, a, env);
    forall p ensures p in mine <==> p in theirs {
      if p in mine {
        var d :| d in a.devices && IdOf(env, d) == p.device;
        assert d in env.ids;
      }
      if p in theirs {
        var d :| d in a.devices && d in env.ids && env.ids[d] == p.device;
        assert IdOf(env, d) in DeviceIds(a, env);
      }
    }
  }

  function IdsOf(devices: seq<string>, env: Env): set<int> { set d | d in devices :: IdOf(env, d) }

  lemma IdsSnoc(before: seq<string>, last: string, env: Env)
    ensures IdsOf(before + [last], env) == IdsOf(before, env) + {IdOf(env, last)}
  {
    hide IdOf;
  }

  lemma {:induction false} OneIdEach(devices: seq<string>, env: Env)
    requires Distinct(devices) && forall d :: d in devices ==> d in env.ids
    requires forall d, e :: d in devices && e in devices && env.ids[d] == env.ids[e] ==> d == e
    ensures |IdsOf(devices, env)| == |devices|
  {
    if devices != [] {
      var before, last := devices[..|devices| - 1], devices[|devices| - 1];
      assert devices == before + [last];
      assert forall i :: 0 <= i < |before| ==> before[i] == devices[i];
      OneIdEach(before, env);
      IdsSnoc(before, last, env);
      assert forall d :: d in before ==> d != last && IdOf(env, d) != IdOf(env, last);
    }
  }

  /**
   * The verdict, decided by what the target holds and records: a marker for every device
   * skips; else rows of the archive's devices in its span refuse unless forced, as an
   * incomplete import if anything at all is recorded of it; else it proceeds.
   */
  lemma VerdictExactly(t: Target, a: Archive, env: Env, force: bool)
    requires Consistent(a, env)
    ensures var markers, chunks := RecordedOf(t, env.source + "#done", a, env), RecordedOf(t, env.source, a, env);
            var overlap := exists i :: 0 <= i < |t.raw| && OfArchive(t.raw[i], a, env);
            Preflight(t, a, env, force)
            == if |markers| >= |a.devices| then Skip
               else if overlap && !force then Refuse(markers != {} || chunks != {})
               else Proceed
  {
    hide CountRows, RecordedOf, OfArchive;
    SomeDevice(a, env);
    OverlapExactly(t, a, env);
    RecordedAre(t, env.source + "#done", a, env);
    RecordedAre(t, env.source, a, env);
    OneIdEach(a.devices, env);
    assert DeviceIds(a, env) == IdsOf(a.devices, env);
  }

  /** A device of the archive that the target does not know refuses before anything is written. */
  lemma UnknownDeviceIsRefused(t: Target, a: Archive, env: Env, slug: string, force: bool)
    requires slug in a.devices && slug !in env.ids
    ensures Preflight(t, a, env, force) == Refuse(false)
  {
  }

  // ----- at most once --------------------------------------------------------

  lemma EffectiveBounded(t: Target, a: Archive, env: Env)
    requires Consistent(a, env)
    ensures multiset(Effective(t, a, env)) <= multiset(RowsOf(a.readings, env))
  {
    hide RowsOf, OfTier, AllRows, Emitted, Units;
    EmittedBounded(Units(a, a.devices), t.progress, a, env);
    CompleteIsKept(a, env);
  }

  /** One attempt appends part of what it would write in full. */
  lemma AttemptAppends(t: Target, a: Archive, env: Env, n: nat)
    requires Consistent(a, env)
    ensures var t' := Attempt(t, a, env, n);
            t.raw <= t'.raw && (t'.raw == t.raw || t'.raw <= t.raw + Effective(t, a, env))
    ensures Preflight(t, a, env, false) != Proceed ==> Attempt(t, a, env, n) == t
  {
    hide Preflight, Units, RowsOf, OfTier, Program, ExecAll, Emitted, Keys;
    if Preflight(t, a, env, false) == Proceed {
      RunShape(t, a, env, n);
      var t' := Attempt(t, a, env, n);
      var us := Units(a, a.devices);
      if !StillLoading(t, t', a, env) {
        var k :| Reached(t, t', a, env, k);
        EmittedPrefix(us, k, t.progress, a, env);
      }
    }
  }

  /**
   * However often the import is killed and started again, the rows it has added to
   * `metrics_raw` are at most the archive's own, each as often as the archive holds it.
   */
  lemma {:induction false} AddedAtMostOnce(t: Target, a: Archive, env: Env, kills: seq<nat>)
    requires Consistent(a, env)
    ensures var t' := Attempts(t, a, env, kills);
            t.raw <= t'.raw && multiset(t'.raw[|t.raw|..]) <= multiset(RowsOf(a.readings, env))
  {
    hide Preflight, Units, RowsOf, OfTier, Program, Effective, CountRows, OverlappingRows, Attempt;
    if kills == [] {
      assert t.raw[|t.raw|..] == [];
    } else {
      var before := kills[..|kills| - 1];
      var mid, end := Attempts(t, a, env, before), Attempts(t, a, env, kills);
      AddedAtMostOnce(t, a, env, before);
      AttemptAppends(mid, a, env, kills[|kills| - 1]);
      if end.raw != mid.raw {
        ProceedsExactly(mid, a, env);
        AddedRowsAreArchive(t, mid, a, env);
        EffectiveBounded(mid, a, env);
        PrefixBounded(mid.raw, end.raw, Effective(mid, a, env));
      }
    }
  }

  /** From a target with no row in the archive's span, no reading is ever in `metrics_raw` twice. */
  lemma ImportIsAtMostOnce(t: Target, a: Archive, env: Env, kills: seq<nat>, row: RawRow)
    requires Consistent(a, env) && OverlappingRows(t, a, env) == 0 && row in RowsOf(a.readings, env)
    ensures multiset(Attempts(t, a, env, kills).raw)[row] <= multiset(RowsOf(a.readings, env))[row]
  {
    hide RowsOf, Attempts, CountRows;
    AddedAtMostOnce(t, a, env, kills);
    OldRowsAreOthers(t, a, env);
    var end := Attempts(t, a, env, kills);
    assert end.raw == t.raw + end.raw[|t.raw|..];
    assert multiset(t.raw)[row] == 0;
  }

  lemma PrefixBounded<T>(xs: seq<T>, ys: seq<T>, more: seq<T>)
    requires xs <= ys <= xs + more
    ensures multiset(ys[|xs|..]) <= multiset(more)
  {
    var extra := ys[|xs|..];
    assert extra <= more;
    assert more == extra + more[|extra|..];
  }

  /** While an attempt may still proceed, nothing has been added. */
  lemma AddedRowsAreArchive(t: Target, mid: Target, a: Archive, env: Env)
    requires Consistent(a, env)
    requires t.raw <= mid.raw && multiset(mid.raw[|t.raw|..]) <= multiset(RowsOf(a.readings, env))
    requires forall i :: 0 <= i < |mid.raw| ==> !OfArchive(mid.raw[i], a, env)
    ensures mid.raw == t.raw
  {
    if |mid.raw| > |t.raw| {
      var row := mid.raw[|t.raw|];
      assert mid.raw[|t.raw|..][0] == row;
      assert row in multiset(mid.raw[|t.raw|..]);
      assert row in multiset(RowsOf(a.readings, env));
      ArchiveRow(a, env, row);
    }
  }

  lemma OldRowsAreOthers(t: Target, a: Archive, env: Env)
    requires Consistent(a, env)
    ensures OverlappingRows(t, a, env) == 0 ==> forall row :: row in RowsOf(a.readings, env) ==> row !in t.raw
  {
    if OverlappingRows(t, a, env) == 0 {
      forall row | row in RowsOf(a.readings, env) ensures row !in t.raw {
        ArchiveRow(a, env, row);
        if row in t.raw {
          var i :| 0 <= i < |t.raw| && t.raw[i] == row;
          RowIsCounted(t.raw, DeviceIds(a, env), a.span.value, i);
        }
      }
    }
  }

  // ----- completion ----------------------------------------------------------

  /** The target has never seen this archive. */
  predicate Unseen(t: Target, a: Archive, env: Env) {
    forall p :: p in t.progress && p.device in DeviceIds(a, env)
        ==> p.source != env.source && p.source != DoneSource(env.source)
  }

  predicate SomeDeviceMarked(t: Target, a: Archive, env: Env) {
    exists p :: p in t.progress && p.source == DoneSource(env.source) && p.device in DeviceIds(a, env)
  }

  /** What every reachable target keeps, seen from the target of the first attempt. */
  predicate Sound(t: Target, t': Target, a: Archive, env: Env) {
    && t.raw <= t'.raw <= t.raw + Complete(a, env)
    && (SomeDeviceMarked(t', a, env) ==> t'.raw == t.raw + Complete(a, env))
    && (t'.raw == t.raw ==> DoneAreEmpty(Units(a, a.devices), t'.progress, a, env))
  }

  lemma UnitKeyIsOfArchive(a: Archive, env: Env, i: nat)
    requires Consistent(a, env) && i < |Units(a, a.devices)|
    ensures KeyOf(Units(a, a.devices)[i], env).device in DeviceIds(a, env)
  {
    UnitsStaged(a, env, a.devices);
  }

  lemma UnseenIsSound(t: Target, a: Archive, env: Env)
    requires Consistent(a, env) && Unseen(t, a, env)
    ensures Sound(t, t, a, env)
  {
    hide Units, Complete, DeviceIds;
    forall i | 0 <= i < |Units(a, a.devices)| ensures KeyOf(Units(a, a.devices)[i], env) !in t.progress {
      UnitKeyIsOfArchive(a, env, i);
    }
  }

  lemma EffectiveIsComplete(t: Target, a: Archive, env: Env)
    requires Consistent(a, env) && DoneAreEmpty(Units(a, a.devices), t.progress, a, env)
    ensures Effective(t, a, env) == Complete(a, env)
  {
    UnitKeysDistinct(a, env, a.devices);
    EmittedIsAll(Units(a, a.devices), t.progress, a, env);
  }

  /** Chunks that were watermarked without adding a row have no row. */
  lemma WatermarkedAreEmpty(t: Target, t': Target, a: Archive, env: Env, k: nat)
    requires Consistent(a, env) && Reached(t, t', a, env, k) && t'.raw == t.raw
    requires DoneAreEmpty(Units(a, a.devices), t.progress, a, env)
    ensures DoneAreEmpty(Units(a, a.devices), t'.progress, a, env)
  {
    hide Units, RowsOf, OfTier, Emitted, UnitRows;
    var us := Units(a, a.devices);
    UnitKeysDistinct(a, env, a.devices);
    assert DistinctKeys(us[..k], env) && DoneAreEmpty(us[..k], t.progress, a, env);
    EmittedIsAll(us[..k], t.progress, a, env);
    forall i | 0 <= i < |us| && KeyOf(us[i], env) in t'.progress
      ensures UnitRows(a.readings, us[i], a.configKeys, env) == []
    {
      if KeyOf(us[i], env) !in t.progress {
        var u :| u in us[..k] && KeyOf(u, env) == KeyOf(us[i], env);
        var j :| 0 <= j < k && us[..k][j] == u;
        assert us[j] == u;
        assert i == j;
        EmptyAllRows(us[..k], a, env, i);
      }
    }
  }

  lemma SoundStep(t: Target, mid: Target, a: Archive, env: Env, n: nat)
    requires Consistent(a, env) && Sound(t, mid, a, env)
    ensures Sound(t, Attempt(mid, a, env, n), a, env)
  {
    hide Preflight, Units, RowsOf, OfTier, Program, ExecAll, Emitted, Keys, DoneAreEmpty, AllRows, DeviceIds, CountRows;
    if Preflight(mid, a, env, false) == Proceed {
      var us, end := Units(a, a.devices), Attempt(mid, a, env, n);
      StillClean(t, mid, a, env);
      EffectiveIsComplete(mid, a, env);
      RunShape(mid, a, env, n);
      if !StillLoading(mid, end, a, env) {
        var k :| Reached(mid, end, a, env, k);
        EmittedPrefix(us, k, mid.progress, a, env);
        if end.raw == mid.raw { WatermarkedAreEmpty(mid, end, a, env, k); }
        if SomeDeviceMarked(end, a, env) { MarkedMeansLast(mid, end, a, env, k); }
      }
    }
  }

  lemma StillClean(t: Target, mid: Target, a: Archive, env: Env)
    requires Consistent(a, env) && Sound(t, mid, a, env) && Preflight(mid, a, env, false) == Proceed
    ensures mid.raw == t.raw
  {
    hide Units, RowsOf, OfTier, AllRows, DoneAreEmpty, Preflight, OfArchive, DeviceIds;
    ProceedsExactly(mid, a, env);
    CompleteIsKept(a, env);
    PrefixBounded(t.raw, mid.raw, Complete(a, env));
    AddedRowsAreArchive(t, mid, a, env);
  }

  lemma MarkedMeansLast(mid: Target, end: Target, a: Archive, env: Env, k: nat)
    requires Consistent(a, env) && Reached(mid, end, a, env, k) && SomeDeviceMarked(end, a, env)
    ensures SomeDeviceMarked(mid, a, env) || end.raw == mid.raw + Effective(mid, a, env)
  {
    hide Units, RowsOf, OfTier, Emitted, DeviceIds;
    var us := Units(a, a.devices);
    var p :| p in end.progress && p.source == DoneSource(env.source) && p.device in DeviceIds(a, env);
    if p !in mid.progress {
      assert k == |us|;
      assert us[..k] == us;
    }
  }

  lemma {:induction false} EveryRunIsSound(t: Target, a: Archive, env: Env, kills: seq<nat>)
    requires Consistent(a, env) && Unseen(t, a, env)
    ensures Sound(t, Attempts(t, a, env, kills), a, env)
  {
    hide Sound, Unseen, Consistent, Attempt;
    if kills == [] {
      UnseenIsSound(t, a, env);
    } else {
      EveryRunIsSound(t, a, env, kills[..|kills| - 1]);
      SoundStep(t, Attempts(t, a, env, kills[..|kills| - 1]), a, env, kills[|kills| - 1]);
    }
  }

  /** Skipping is sound: an attempt that finds nothing to do leaves a complete import. */
  lemma SkipMeansComplete(t: Target, a: Archive, env: Env, kills: seq<nat>)
    requires Consistent(a, env) && Unseen(t, a, env)
    requires Preflight(Attempts(t, a, env, kills), a, env, false) == Skip
    ensures Attempts(t, a, env, kills).raw == t.raw + Complete(a, env)
  {
    hide Attempts, Complete, Units;
    var end := Attempts(t, a, env, kills);
    EveryRunIsSound(t, a, env, kills);
    var marks := Recorded(end, DoneSource(env.source), DeviceIds(a, env));
    assert |marks| > 0;
    assert marks != {};
    var p :| p in marks;
  }

  /** An import that was killed with rows behind it is refused from then on, never resumed and never doubled. */
  lemma PartialImportIsRefused(t: Target, a: Archive, env: Env, kills: seq<nat>)
    requires Consistent(a, env) && Unseen(t, a, env)
    requires var raw := Attempts(t, a, env, kills).raw; raw != t.raw && raw != t.raw + Complete(a, env)
    ensures Preflight(Attempts(t, a, env, kills), a, env, false).Refuse?
  {
    hide Attempts, Complete, Units, Preflight;
    EveryRunIsSound(t, a, env, kills);
    var end := Attempts(t, a, env, kills);
    if Preflight(end, a, env, false) == Proceed { StillClean(t, end, a, env); }
    if Preflight(end, a, env, false) == Skip { SkipMeansComplete(t, a, env, kills); }
  }

  // ----- a finished import is final ------------------------------------------

  function Devices(marks: set<Progress>): set<int> { set p | p in marks :: p.device }

  lemma {:induction false} DevicesAtMost(marks: set<Progress>)
    ensures |Devices(marks)| <= |marks|
    decreases |marks|
  {
    if marks != {} {
      var p :| p in marks;
      DevicesAtMost(marks - {p});
      assert Devices(marks) <= Devices(marks - {p}) + {p.device};
      FewerIn(Devices(marks), Devices(marks - {p}) + {p.device});
    } else {
      assert Devices(marks) == {};
    }
  }

  lemma {:induction false} FewerIn(x: set<int>, y: set<int>)
    requires x <= y
    ensures |x| <= |y|
  {
    assert y == x + (y - x);
  }

  lemma AllMarkedSkips(t: Target, a: Archive, env: Env)
    requires Consistent(a, env) && AllMarked(t, a, env)
    ensures Preflight(t, a, env, false) == Skip
  {
    var ids := DeviceIds(a, env);
    var marks := Recorded(t, DoneSource(env.source), ids);
    forall d | d in ids ensures d in Devices(marks) {
      var slug :| slug in a.devices && IdOf(env, slug) == d;
      var p :| p in t.progress && p.source == DoneSource(env.source) && p.device == IdOf(env, slug);
      assert p in marks;
    }
    DevicesAtMost(marks);
    FewerIn(ids, Devices(marks));
    assert a.readings[0] in a.readings;
    assert IdOf(env, a.readings[0].series.device) in ids;
    assert ids != {};
  }

  /** Once an attempt has run to its end, every later one skips and writes nothing. */
  lemma {:induction false} FinishedImportIsFinal(t: Target, a: Archive, env: Env, n: nat, kills: seq<nat>)
    requires Consistent(a, env) && Preflight(t, a, env, false) == Proceed && n >= |Program(a, env)|
    ensures var done := Attempt(t, a, env, n);
            && Preflight(done, a, env, false) == Skip
            && Attempts(done, a, env, kills) == done
            && done.raw == t.raw + Effective(t, a, env)
  {
    hide Preflight, Program, ExecAll, Emitted, AllMarked, Units, OfTier, RowsOf;
    var done := Attempt(t, a, env, n);
    RunShape(t, a, env, n);
    AllMarkedSkips(done, a, env);
    assert Units(a, a.devices)[..|Units(a, a.devices)|] == Units(a, a.devices);
    if kills != [] { FinishedImportIsFinal(t, a, env, n, kills[..|kills| - 1]); }
  }
}
