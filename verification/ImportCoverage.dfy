/**
 * Which staged readings an import replays: the plan of each device is made from the
 * windows of its own staging tables, so a reading arrives when its tier answers its
 * instant there.
 */
module ImportCoverage {
  import opened Wrappers
  import opened Database
  import opened Spans
  import opened Replay
  import opened ChangeFilter
  import opened ExportRun
  import opened ArchiveImport
  import opened ImportSafety
  import opened ImportGuarantees

  /** The readings an import should put into `metrics_raw`: configuration buckets are logged instead. */
  predicate Wants(r: Reading, config: set<string>) { r.tier == Raw || r.series.metric !in config }

  function Wanted(rs: seq<Reading>, config: set<string>): seq<Reading> {
    if rs == [] then []
    else
      var before, r := Wanted(rs[..|rs| - 1], config), rs[|rs| - 1];
      if Wants(r, config) then before + [r] else before
  }

  /**
   * The device's staged windows hand the instant of the reading to the reading's tier:
   * it can answer the instant's day piece, and no finer staged tier can.
   */
  predicate Answered(a: Archive, r: Reading) {
    var ws := DeviceWindows(a, r.series.device);
    ws != [] && Answers(ws, r.tier, FirstFrom(ws), LastTo(ws), r.time)
  }

  predicate AllAnswered(a: Archive) {
    forall r :: r in a.readings && r.tier != Raw && r.series.metric !in a.configKeys ==> Answered(a, r)
  }

  // ----- a staged reading lies in its tier's window -------------------------------

  lemma {:induction false} InOfTier(rs: seq<Reading>, r: Reading)
    requires r in rs
    ensures r in OfDevice(OfTier(rs, r.tier), r.series.device)
  {
    if rs[0] != r { InOfTier(rs[1..], r); }
    if rs[0].tier == r.tier { assert OfTier(rs, r.tier)[1..] == OfTier(rs[1..], r.tier); }
  }

  lemma {:induction false} TimesBetween(rs: seq<Reading>, r: Reading)
    requires r in rs
    ensures Earliest(rs) <= r.time <= Latest(rs)
  {
    if r in rs[1..] { TimesBetween(rs[1..], r); }
  }

  lemma {:induction false} StagedWindow(rs: seq<Reading>, slug: string, tiers: seq<Tier>, tier: Tier)
    requires Raw !in tiers && tier in tiers && OfDevice(OfTier(rs, tier), slug) != []
    ensures var mine, ws := OfDevice(OfTier(rs, tier), slug), StageWindows(rs, slug, tiers);
            var w := Window(tier, Earliest(mine), Latest(mine) + BucketWidthMs(tier));
            w in ws && WindowOf(ws, tier) == Some(w)
  {
    hide OfTier, OfDevice, Earliest, Latest;
    var ws, first := StageWindows(rs, slug, tiers), OfDevice(OfTier(rs, tiers[0]), slug);
    if first != [] { assert ws[1..] == StageWindows(rs, slug, tiers[1..]); }
    if tiers[0] != tier { StagedWindow(rs, slug, tiers[1..], tier); }
  }

  lemma ReadingIsHeld(a: Archive, env: Env, r: Reading)
    requires Consistent(a, env) && r in a.readings && r.tier != Raw
    ensures var ws := DeviceWindows(a, r.series.device);
            ws != [] && HeldBy(ws, r.tier, r.time) && FirstFrom(ws) <= r.time < LastTo(ws)
  {
    var ws, mine := DeviceWindows(a, r.series.device), OfDevice(OfTier(a.readings, r.tier), r.series.device);
    BucketTiersKnown(a.declared, BUCKETS);
    assert r.tier in BUCKETS by { match r.tier { case Minute => case Hourly => case Daily => } }
    InOfTier(a.readings, r);
    TimesBetween(mine, r);
    StagedWindow(a.readings, r.series.device, StagedTiers(a), r.tier);
    hide DeviceWindows, OfTier, OfDevice, Earliest, Latest;
    WithinAll(ws, Window(r.tier, Earliest(mine), Latest(mine) + BucketWidthMs(r.tier)));
  }

  // ----- one reading ---------------------------------------------------------------

  lemma {:induction false} SelectedByOwnDevice(a: Archive, devices: seq<string>, r: Reading)
    requires Distinct(devices)
    ensures SelHits(Units(a, devices), r, a.configKeys)
         == if r.series.device in devices && r.series.metric !in a.configKeys
            then TierHits(ChunksOf(DevicePieces(a, r.series.device)), r.tier, r.time) else 0
  {
    if devices != [] {
      hide DevicePieces, TierHits, ChunksOf;
      var chunks, later := ChunksOf(DevicePieces(a, devices[0])), Units(a, devices[1..]);
      SelectedByOwnDevice(a, devices[1..], r);
      SelHitsConcat(UnitsFor(devices[0], chunks), later, r, a.configKeys);
      SelHitsOfDevice(devices[0], chunks, r, a.configKeys);
      assert devices[0] !in devices[1..];
    }
  }

  /**
   * A staged reading is selected by exactly one chunk when it is not configuration
   * and the device's own windows answer it, and by none otherwise.
   */
  lemma ReadingIsReplayedExactly(a: Archive, env: Env, r: Reading)
    requires Consistent(a, env) && r in a.readings && r.tier != Raw
    ensures SelHits(Units(a, a.devices), r, a.configKeys)
         == if r.series.metric !in a.configKeys && Answered(a, r) then 1 else 0
  {
    ReadingIsHeld(a, env, r);
    SelectedByOwnDevice(a, a.devices, r);
    hide DeviceWindows, ReplayPieces, Answers, ChunksOf, FirstFrom, LastTo;
    var ws := DeviceWindows(a, r.series.device);
    ReplayAnswersExactly(ws, FirstFrom(ws), FirstFrom(ws), LastTo(ws), r.tier, r.time);
  }

  // ----- all of them ----------------------------------------------------------------

  predicate IsKept(r: Reading, us: seq<Unit>, config: set<string>) { r.tier == Raw || SelHits(us, r, config) > 0 }

  lemma {:induction false} KeptAmongWanted(rs: seq<Reading>, us: seq<Unit>, config: set<string>)
    requires forall i :: 0 <= i < |rs| && IsKept(rs[i], us, config) ==> Wants(rs[i], config)
    ensures |Kept(rs, us, config)| <= |Wanted(rs, config)|
    ensures |Kept(rs, us, config)| == |Wanted(rs, config)|
       <==> forall i :: 0 <= i < |rs| && Wants(rs[i], config) ==> IsKept(rs[i], us, config)
    ensures |Kept(rs, us, config)| == |Wanted(rs, config)| ==> Kept(rs, us, config) == Wanted(rs, config)
  {
    if rs != [] {
      hide SelHits;
      var before := rs[..|rs| - 1];
      assert forall i :: 0 <= i < |before| ==> before[i] == rs[i];
      KeptAmongWanted(before, us, config);
    }
  }

  /**
   * A complete import carries every reading that is not configuration if and only if
   * the windows of its device answer each staged one. A reading they do not answer
   * is dropped, and the import is complete all the same.
   */
  lemma EveryReadingArrivesExactly(a: Archive, env: Env)
    requires Consistent(a, env)
    ensures multiset(Complete(a, env)) == multiset(RowsOf(Wanted(a.readings, a.configKeys), env)) <==> AllAnswered(a)
    ensures multiset(Complete(a, env)) <= multiset(RowsOf(a.readings, env))
  {
    hide Complete, Units, Answered, RowsOf, Consistent, SelHits;
    var rs, us, config := a.readings, Units(a, a.devices), a.configKeys;
    forall i | 0 <= i < |rs|
      ensures IsKept(rs[i], us, config)
         <==> rs[i].tier == Raw || (rs[i].series.metric !in config && Answered(a, rs[i]))
    {
      assert rs[i] in rs;
      if rs[i].tier != Raw { ReadingIsReplayedExactly(a, env, rs[i]); }
    }
    KeptAmongWanted(rs, us, config);
    CompleteIsKept(a, env);
    var kept, wanted := RowsOf(Kept(rs, us, config), env), RowsOf(Wanted(rs, config), env);
    assert multiset(kept) == multiset(wanted) ==> |kept| == |wanted| by { SameSize(kept, wanted); }
    if AllAnswered(a) {
      forall i | 0 <= i < |rs| && Wants(rs[i], config) ensures IsKept(rs[i], us, config) { assert rs[i] in rs; }
    }
  }

  lemma SameSize<T>(xs: seq<T>, ys: seq<T>)
    ensures multiset(xs) == multiset(ys) ==> |xs| == |ys|
  {
    assert |multiset(xs)| == |xs| && |multiset(ys)| == |ys|;
  }

  lemma {:induction false} BucketTiersDistinct(declared: set<Tier>, tiers: seq<Tier>)
    requires Distinct(tiers)
    ensures Distinct(BucketTiers(declared, tiers))
  {
    if tiers != [] {
      BucketTiersDistinct(declared, tiers[1..]);
      BucketTiersKnown(declared, tiers[1..]);
      assert tiers[0] !in tiers[1..];
    }
  }

  lemma {:induction false} NoneOfTier(rs: seq<Reading>, tier: Tier)
    requires forall r :: r in rs ==> r.tier != tier
    ensures OfTier(rs, tier) == []
  {
    if rs != [] { NoneOfTier(rs[1..], tier); }
  }

  lemma {:induction false} OnlyTier(rs: seq<Reading>, slug: string, tiers: seq<Tier>, tier: Tier)
    requires Raw !in tiers && Distinct(tiers) && forall r :: r in rs ==> r.tier == Raw || r.tier == tier
    ensures var ws := StageWindows(rs, slug, tiers); |ws| <= if tier in tiers then 1 else 0
  {
    if tiers != [] {
      OnlyTier(rs, slug, tiers[1..], tier);
      if tiers[0] != tier { NoneOfTier(rs, tiers[0]); } else { assert tier !in tiers[1..]; }
    }
  }

  lemma OneWindowAnswers(w: Window, tier: Tier, t: int)
    requires tier != Raw && HeldBy([w], tier, t)
    ensures Answers([w], tier, FirstFrom([w]), LastTo([w]), t)
  {
    assert [w][1..] == [] && forall x: Tier :: WindowOf([], x) == None;
    assert forall x: Tier :: WindowOf([w], x) == if x == w.tier then Some(w) else None;
  }

  /** An archive whose buckets are all of one tier is answered throughout. */
  lemma OneTierArrives(a: Archive, env: Env, tier: Tier)
    requires Consistent(a, env) && tier != Raw && forall r :: r in a.readings ==> r.tier == Raw || r.tier == tier
    ensures AllAnswered(a)
  {
    BucketTiersDistinct(a.declared, BUCKETS);
    forall r | r in a.readings && r.tier != Raw ensures Answered(a, r) {
      var ws := DeviceWindows(a, r.series.device);
      ReadingIsHeld(a, env, r);
      OnlyTier(a.readings, r.series.device, StagedTiers(a), tier);
      hide DeviceWindows;
      assert ws == [ws[0]];
      OneWindowAnswers(ws[0], r.tier, r.time);
    }
  }

  // ----- a reading that does not arrive -------------------------------------------------

  /** Hourly history up to a midnight, and a minute tier that starts at noon of the next day. */
  function Midday(): Archive {
    var x := Series("d", "x");
    Archive([Reading(x, 82_800_000, 1.0, Some(3_600_000), Hourly),
             Reading(x, DAY_MS + 43_200_000, 2.0, Some(60_000), Minute),
             Reading(x, 2 * DAY_MS + 43_200_000, 3.0, Some(60_000), Minute)],
            Some(Span(82_800_000, 3 * DAY_MS)), {Minute, Hourly}, ["d"], {})
  }

  function MiddayEnv(): Env { Env("sha", map["d" := 1], 1000) }

  lemma MiddayWindows()
    ensures DeviceWindows(Midday(), "d")
         == [Window(Minute, DAY_MS + 43_200_000, 2 * DAY_MS + 43_260_000), Window(Hourly, 82_800_000, DAY_MS)]
  {
    var rs := Midday().readings;
    assert rs[1..] == [rs[1], rs[2]] && rs[1..][1..] == [rs[2]] && rs[1..][1..][1..] == [];
    assert OfTier([rs[2]], Minute) == [rs[2]] && OfTier([rs[2]], Hourly) == [];
    assert OfTier(rs[1..], Minute) == [rs[1], rs[2]] && OfTier(rs[1..], Hourly) == [];
    assert OfTier(rs, Minute) == [rs[1], rs[2]] && OfTier(rs, Hourly) == [rs[0]];
    assert [rs[1], rs[2]][1..] == [rs[2]] && [rs[0]][1..] == [] && OfDevice([], "d") == [];
    assert OfDevice([rs[2]], "d") == [rs[2]];
    assert OfDevice([rs[1], rs[2]], "d") == [rs[1], rs[2]] && OfDevice([rs[0]], "d") == [rs[0]];
    assert BUCKETS[1..] == [Hourly, Daily] && BUCKETS[1..][1..] == [Daily] && BUCKETS[1..][1..][1..] == [];
    assert BucketTiers({Minute, Hourly}, [Daily]) == [];
    assert BucketTiers({Minute, Hourly}, [Hourly, Daily]) == [Hourly];
    var tiers := StagedTiers(Midday());
    assert tiers == [Minute, Hourly] && tiers[1..] == [Hourly] && [Hourly][1..] == [];
    assert StageWindows(rs, "d", []) == [];
    assert StageWindows(rs, "d", [Hourly]) == [Window(Hourly, 82_800_000, DAY_MS)];
  }

  lemma MiddayIsConsistent()
    ensures Consistent(Midday(), MiddayEnv())
  {
  }

  lemma MiddayIsUnanswered()
    ensures !Answered(Midday(), Midday().readings[1])
  {
    MiddayWindows();
    hide DeviceWindows;
    var ws := DeviceWindows(Midday(), "d");
    assert ws[1..] == [ws[1]];
    assert FirstFrom([ws[1]]) == 82_800_000 && LastTo([ws[1]]) == DAY_MS;
    assert FirstFrom(ws) == 82_800_000 && LastTo(ws) == 2 * DAY_MS + 43_260_000;
    assert WindowOf(ws, Minute) == Some(ws[0]);
  }

  lemma EverythingWanted()
    ensures Wanted(Midday().readings, {}) == Midday().readings
  {
    var rs := Midday().readings;
    assert rs[..2] == [rs[0], rs[1]] && rs[..2][..1] == [rs[0]] && rs[..2][..1][..0] == [];
    assert Wanted([rs[0]], {}) == [rs[0]];
    assert Wanted([rs[0], rs[1]], {}) == [rs[0], rs[1]];
  }

  /**
   * The day between is covered whole by neither tier, so its noon reading is never
   * replayed, although it is staged and the import comes to its end.
   */
  lemma MiddayReadingIsLost()
    ensures var a, env := Midday(), MiddayEnv();
            && Consistent(a, env) && SelHits(Units(a, a.devices), a.readings[1], {}) == 0
            && multiset(Complete(a, env)) != multiset(RowsOf(a.readings, env))
  {
    var a, env := Midday(), MiddayEnv();
    MiddayIsConsistent();
    MiddayIsUnanswered();
    EverythingWanted();
    hide Units, Complete, RowsOf, SelHits, Consistent, Wanted, Answered;
    assert a.readings[1] in a.readings;
    ReadingIsReplayedExactly(a, env, a.readings[1]);
    EveryReadingArrivesExactly(a, env);
  }
}
