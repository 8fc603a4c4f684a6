/**
 * The export planner of packages/db/src/archive-export.ts: `planExport` lays raw
 * on top of the replay planner, `windowsOf` cuts a chunk into query windows.
 */
module ExportPlan {
  import opened Wrappers
  import opened Spans
  import opened Replay

  function BucketWindows(windows: seq<Window>): seq<Window> {
    if windows == [] then []
    else if windows[0].tier != Raw then [windows[0]] + BucketWindows(windows[1..])
    else BucketWindows(windows[1..])
  }

  /** Raw answers a day piece when it has begun by the piece's start and ends after it. */
  predicate RawCovers(windows: seq<Window>, day: Span) {
    var raw := WindowOf(windows, Raw);
    raw.Some? && raw.value.from <= day.start && raw.value.to > day.start
  }

  /** One day piece: raw, or whatever the replay planner makes of that day alone. */
  function PiecePlan(windows: seq<Window>, day: Span): seq<Piece> {
    if RawCovers(windows, day) then [Answered(Raw, day)]
    else ReplayPieces(BucketWindows(windows), day.start, day.start, day.end)
  }

  function ExportPieces(windows: seq<Window>, cursor: int, end: int): seq<Piece>
    decreases end - cursor
  {
    if cursor >= end then []
    else PiecePlan(windows, Span(cursor, Min(DayEnd(cursor), end))) + ExportPieces(windows, DayEnd(cursor), end)
  }

  lemma ExportStep(windows: seq<Window>, cursor: int, end: int)
    ensures var today := PlanOf(PiecePlan(windows, Span(cursor, Min(DayEnd(cursor), end))));
            var now := PlanOf(ExportPieces(windows, cursor, end));
            var later := PlanOf(ExportPieces(windows, DayEnd(cursor), end));
            if cursor < end then now.chunks == today.chunks + later.chunks && now.gaps == today.gaps + later.gaps
            else now == Plan([], [])
  {
    SplitConcat(PiecePlan(windows, Span(cursor, Min(DayEnd(cursor), end))), ExportPieces(windows, DayEnd(cursor), end));
  }

  /** The body of the loop: one day piece. */
  method PlanPiece(windows: seq<Window>, buckets: seq<Window>, day: Span) returns (plan: Plan)
    requires buckets == BucketWindows(windows)
    ensures plan == PlanOf(PiecePlan(windows, day))
  {
    if RawCovers(windows, day) {
      ghost var pieces: seq<Piece> := [Answered(Raw, day)];
      assert pieces[1..] == [] && GapsOf(pieces) == [] && ChunksOf(pieces) == [Chunk(Raw, day)];
      plan := Plan([Chunk(Raw, day)], []);
    } else {
      plan := PlanReplay(day.start, day.end, buckets);
    }
  }

  method PlanExport(windows: seq<Window>, from: int, end: int) returns (plan: Plan)
    ensures plan == PlanOf(ExportPieces(windows, from, end))
  {
    hide PiecePlan, ChunksOf, GapsOf;
    var buckets := BucketWindows(windows);
    var chunks: seq<Chunk> := [];
    var gaps: seq<Span> := [];
    var cursor := from;
    ghost var all := PlanOf(ExportPieces(windows, from, end));
    while cursor < end
      invariant all.chunks == chunks + ChunksOf(ExportPieces(windows, cursor, end))
      invariant all.gaps == gaps + GapsOf(ExportPieces(windows, cursor, end))
      decreases end - cursor
    {
      var dayEnd := DayEnd(cursor);
      var day := Span(cursor, Min(dayEnd, end));
      var planned := PlanPiece(windows, buckets, day);
      ghost var later := PlanOf(ExportPieces(windows, dayEnd, end));
      ExportStep(windows, cursor, end);
      assert chunks + (planned.chunks + later.chunks) == chunks + planned.chunks + later.chunks;
      assert gaps + (planned.gaps + later.gaps) == gaps + planned.gaps + later.gaps;
      chunks := chunks + planned.chunks;
      gaps := gaps + planned.gaps;
      cursor := dayEnd;
    }
    ExportStep(windows, cursor, end);
    plan := Plan(chunks, gaps);
  }

  /** The plan over everything the source holds. */
  function PlannedPieces(windows: seq<Window>): seq<Piece> {
    if windows == [] then [] else ExportPieces(windows, FirstFrom(windows), LastTo(windows))
  }

  method PlanFor(windows: seq<Window>) returns (plan: Plan)
    ensures plan == PlanOf(PlannedPieces(windows))
  {
    if windows == [] { return Plan([], []); }
    plan := PlanExport(windows, FirstFrom(windows), LastTo(windows));
  }

  // ----- the plan is a partition -------------------------------------------

  lemma PieceTiles(windows: seq<Window>, day: Span)
    requires day.start < day.end
    ensures Tiles(SpansOf(PiecePlan(windows, day)), day.start, day.end)
  {
    if !RawCovers(windows, day) { ReplayTiles(BucketWindows(windows), day.start, day.start, day.end); }
  }

  /** Chunks and gaps of an export plan partition its span, in order and without overlap. */
  lemma {:induction false} ExportTiles(windows: seq<Window>, cursor: int, end: int)
    requires cursor <= end
    ensures Tiles(SpansOf(ExportPieces(windows, cursor, end)), cursor, end)
    decreases end - cursor
  {
    if cursor < end {
      var stop := Min(DayEnd(cursor), end);
      var today, later := PiecePlan(windows, Span(cursor, stop)), ExportPieces(windows, DayEnd(cursor), end);
      PieceTiles(windows, Span(cursor, stop));
      if DayEnd(cursor) <= end { ExportTiles(windows, DayEnd(cursor), end); }
      SplitConcat(today, later);
      TilesConcat(SpansOf(today), SpansOf(later), cursor, stop, end);
    }
  }

  /** No instant is given to two chunks, whatever the tiers. */
  lemma EachInstantPlannedOnce(windows: seq<Window>, from: int, end: int, tier: Tier, t: int)
    requires from <= end
    ensures TierHits(ChunksOf(ExportPieces(windows, from, end)), tier, t) <= if from <= t < end then 1 else 0
    ensures Hits(SpansOf(ExportPieces(windows, from, end)), t) == if from <= t < end then 1 else 0
  {
    ExportTiles(windows, from, end);
    TilesHitOnce(SpansOf(ExportPieces(windows, from, end)), from, end, t);
    TierHitsBounded(ExportPieces(windows, from, end), tier, t);
  }

  /**
   * Raw answers an instant if and only if its window has begun by the start of the
   * instant's day piece and ends after that start.
   */
  lemma {:induction false} RawAnswersExactly(windows: seq<Window>, from: int, end: int, t: int)
    requires from <= t < end
    ensures var raw, day := WindowOf(windows, Raw), DayPieceOf(from, end, t);
            TierHits(ChunksOf(ExportPieces(windows, from, end)), Raw, t)
            == if raw.Some? && raw.value.from <= day.start < raw.value.to then 1 else 0
    decreases end - from
  {
    var stop := Min(DayEnd(from), end);
    var day := Span(from, stop);
    var today, later := PiecePlan(windows, day), ExportPieces(windows, DayEnd(from), end);
    SplitConcat(today, later);
    TierHitsConcat(ChunksOf(today), ChunksOf(later), Raw, t);
    if !RawCovers(windows, day) {
      NoRawInReplay(BucketWindows(windows), from, from, stop, t);
    } else {
      assert ChunksOf(today) == [Chunk(Raw, day)] by { assert today[1..] == []; }
      assert ChunksOf(today)[1..] == [];
    }
    if t < DayEnd(from) {
      assert DayPieceOf(from, end, t) == day;
      if DayEnd(from) <= end {
        EachInstantPlannedOnce(windows, DayEnd(from), end, Raw, t);
      } else {
        assert later == [];
      }
    } else {
      RawAnswersExactly(windows, DayEnd(from), end, t);
      assert DayPieceOf(DayEnd(from), end, t) == DayPieceOf(from, end, t);
    }
  }

  // ----- the bucket tiers of an export --------------------------------------

  lemma {:induction false} BucketWindowsKeepTiers(windows: seq<Window>, tier: Tier)
    ensures WindowOf(BucketWindows(windows), tier) == if tier == Raw then None else WindowOf(windows, tier)
  {
    if windows != [] {
      BucketWindowsKeepTiers(windows[1..], tier);
      if windows[0].tier != Raw { assert BucketWindows(windows)[1..] == BucketWindows(windows[1..]); }
    }
  }

  /** The tier holds some of the piece, up to at least one of its ends. */
  predicate ReachesAnEnd(windows: seq<Window>, tier: Tier, day: Span) {
    var w := WindowOf(windows, tier);
    && w.Some? && Max(w.value.from, day.start) < Min(w.value.to, day.end)
    && (w.value.from <= day.start || day.end <= w.value.to)
  }

  /** A tier that reaches an end of the piece, when no finer one does. */
  predicate FinestToAnEnd(windows: seq<Window>, tier: Tier, day: Span) {
    && tier != Raw && ReachesAnEnd(windows, tier, day)
    && forall finer: Tier :: finer != Raw && BucketWidthMs(finer) < BucketWidthMs(tier) ==>
         !ReachesAnEnd(windows, finer, day)
  }

  /** Who answers an instant of the export, in terms of the windows and the instant's day piece. */
  predicate ExportAnswers(windows: seq<Window>, tier: Tier, day: Span, t: int) {
    var raw := WindowOf(windows, Raw);
    var covered := raw.Some? && raw.value.from <= day.start < raw.value.to;
    if tier == Raw then covered else !covered && HeldBy(windows, tier, t) && FinestToAnEnd(windows, tier, day)
  }

  lemma ServesAlone(windows: seq<Window>, tier: Tier, day: Span)
    requires tier != Raw
    ensures Serves(BucketWindows(windows), tier, day, day.start, day.end) <==> ReachesAnEnd(windows, tier, day)
  {
    BucketWindowsKeepTiers(windows, tier);
  }

  /** A day piece that raw does not answer, at one of its instants. */
  lemma PieceAnswers(windows: seq<Window>, day: Span, tier: Tier, t: int)
    requires day.Holds(t) && day.end <= DayEnd(day.start) && tier != Raw
    ensures TierHits(ChunksOf(PiecePlan(windows, day)), tier, t)
         == if ExportAnswers(windows, tier, day, t) then 1 else 0
  {
    hide ReplayPieces, Serves, ReachesAnEnd, ChunksOf;
    if RawCovers(windows, day) {
      RawPiece(day, tier, t);
    } else {
      assert DayPieceOf(day.start, day.end, t) == day;
      ReplayAnswersExactly(BucketWindows(windows), day.start, day.start, day.end, tier, t);
      BucketWindowsKeepTiers(windows, tier);
      forall x: Tier | x != Raw
        ensures Serves(BucketWindows(windows), x, day, day.start, day.end) <==> ReachesAnEnd(windows, x, day)
      {
        ServesAlone(windows, x, day);
      }
    }
  }

  lemma RawPiece(day: Span, tier: Tier, t: int)
    requires tier != Raw
    ensures TierHits(ChunksOf([Answered(Raw, day)]), tier, t) == 0
  {
    assert [Answered(Raw, day)][1..] == [] && [Chunk(Raw, day)][1..] == [];
  }

  lemma ExportHitsByDay(windows: seq<Window>, from: int, end: int, tier: Tier, t: int)
    requires from < end
    ensures var day := Span(from, Min(DayEnd(from), end));
            var today, later := ChunksOf(PiecePlan(windows, day)), ChunksOf(ExportPieces(windows, DayEnd(from), end));
            && TierHits(ChunksOf(ExportPieces(windows, from, end)), tier, t)
               == TierHits(today, tier, t) + TierHits(later, tier, t)
            && (t >= DayEnd(from) ==> TierHits(today, tier, t) == 0)
            && (t < DayEnd(from) ==> TierHits(later, tier, t) == 0)
  {
    hide PiecePlan, ChunksOf, GapsOf;
    var day := Span(from, Min(DayEnd(from), end));
    var today, later := PiecePlan(windows, day), ExportPieces(windows, DayEnd(from), end);
    SplitConcat(today, later);
    TierHitsConcat(ChunksOf(today), ChunksOf(later), tier, t);
    PieceTiles(windows, day);
    TilesHitOnce(SpansOf(today), from, day.end, t);
    TierHitsBounded(today, tier, t);
    if DayEnd(from) <= end {
      ExportTiles(windows, DayEnd(from), end);
      TilesHitOnce(SpansOf(later), DayEnd(from), end, t);
    }
    TierHitsBounded(later, tier, t);
  }

  /** The bucket tiers' half of `RawAnswersExactly`. */
  lemma {:induction false} BucketAnswersExactly(windows: seq<Window>, from: int, end: int, tier: Tier, t: int)
    requires from <= t < end && tier != Raw
    ensures TierHits(ChunksOf(ExportPieces(windows, from, end)), tier, t)
         == if ExportAnswers(windows, tier, DayPieceOf(from, end, t), t) then 1 else 0
    decreases end - from
  {
    hide PiecePlan, ExportPieces, ExportAnswers, ChunksOf;
    ExportHitsByDay(windows, from, end, tier, t);
    if t < DayEnd(from) {
      assert DayPieceOf(from, end, t) == Span(from, Min(DayEnd(from), end));
      PieceAnswers(windows, DayPieceOf(from, end, t), tier, t);
    } else {
      BucketAnswersExactly(windows, DayEnd(from), end, tier, t);
      assert DayPieceOf(DayEnd(from), end, t) == DayPieceOf(from, end, t);
    }
  }

  lemma ExportAnswersExactly(windows: seq<Window>, from: int, end: int, tier: Tier, t: int)
    requires from <= t < end
    ensures TierHits(ChunksOf(ExportPieces(windows, from, end)), tier, t)
         == if ExportAnswers(windows, tier, DayPieceOf(from, end, t), t) then 1 else 0
  {
    if tier == Raw {
      RawAnswersExactly(windows, from, end, t);
    } else {
      BucketAnswersExactly(windows, from, end, tier, t);
    }
  }

  // ----- what planning each day alone costs --------------------------------

  predicate InGap(windows: seq<Window>, from: int, end: int, t: int) {
    exists g :: g in GapsOf(ExportPieces(windows, from, end)) && g.Holds(t)
  }

  /** The plan reports the instant as unanswerable although some tier, raw included, holds it. */
  predicate LostAt(windows: seq<Window>, from: int, end: int, t: int) {
    InGap(windows, from, end, t) && exists tier: Tier :: HeldBy(windows, tier, t)
  }

  /**
   * Of the tiers that hold the instant, raw has not begun by the start of its day piece
   * (or has ended by then), and each bucket tier lies inside the piece without
   * reaching an end of it or is outranked by a finer tier that does reach one.
   */
  predicate Overlooked(windows: seq<Window>, day: Span, t: int) {
    && (WindowOf(windows, Raw).Some? ==>
          day.start < WindowOf(windows, Raw).value.from || WindowOf(windows, Raw).value.to <= day.start)
    && forall tier: Tier :: tier != Raw && HeldBy(windows, tier, t) ==> !FinestToAnEnd(windows, tier, day)
  }

  /** An instant is in a gap of the plan if and only if nobody answers it. */
  lemma GapsExactly(windows: seq<Window>, from: int, end: int, t: int)
    requires from <= t < end
    ensures InGap(windows, from, end, t) <==> Overlooked(windows, DayPieceOf(from, end, t), t)
  {
    hide ExportPieces, FinestToAnEnd, ChunksOf, GapsOf;
    var pieces, day := ExportPieces(windows, from, end), DayPieceOf(from, end, t);
    EachInstantPlannedOnce(windows, from, end, Raw, t);
    ChunkOrGap(pieces, t);
    HeldIsHit(GapsOf(pieces), t);
    ExportAnswersExactly(windows, from, end, Raw, t);
    ExportAnswersExactly(windows, from, end, Minute, t);
    ExportAnswersExactly(windows, from, end, Hourly, t);
    ExportAnswersExactly(windows, from, end, Daily, t);
    forall tier: Tier | tier != Raw && HeldBy(windows, tier, t) && FinestToAnEnd(windows, tier, day)
        && !ExportAnswers(windows, Raw, day, t)
      ensures Hits(GapsOf(pieces), t) == 0
    {
      match tier { case Minute => case Hourly => case Daily => }
    }
  }

  /** The exact price of planning each day alone: which instants that some tier holds the plan loses. */
  lemma LossExactly(windows: seq<Window>, from: int, end: int, t: int)
    requires from <= t < end
    ensures LostAt(windows, from, end, t)
       <==> (exists tier: Tier :: HeldBy(windows, tier, t)) && Overlooked(windows, DayPieceOf(from, end, t), t)
  {
    hide InGap, Overlooked;
    GapsExactly(windows, from, end, t);
  }

  lemma TwoWindows(a: Window, b: Window)
    requires a.tier != b.tier
    ensures forall tier: Tier ::
              WindowOf([a, b], tier) == if tier == a.tier then Some(a) else if tier == b.tier then Some(b) else None
  {
    assert [a, b][1..] == [b] && [b][1..] == [];
    assert forall tier: Tier :: WindowOf([], tier) == None;
    assert forall tier: Tier :: WindowOf([b], tier) == if tier == b.tier then Some(b) else None;
  }

  /**
   * The minute tier begins at noon of a day in mid-history and the daily tier covers
   * all of it. The replay planner gives the whole day to the daily tier; the export
   * loses its morning.
   */
  lemma MorningIsLost()
    ensures var noon := DAY_MS + 43_200_000;
            var windows := [Window(Minute, noon, 3 * DAY_MS), Window(Daily, 0, 3 * DAY_MS)];
            && TierHits(ChunksOf(ReplayPieces(windows, 0, 0, 3 * DAY_MS)), Daily, DAY_MS) == 1
            && LostAt(windows, 0, 3 * DAY_MS, DAY_MS)
  {
    var noon := DAY_MS + 43_200_000;
    var windows := [Window(Minute, noon, 3 * DAY_MS), Window(Daily, 0, 3 * DAY_MS)];
    TwoWindows(windows[0], windows[1]);
    ReplayAnswersExactly(windows, 0, 0, 3 * DAY_MS, Daily, DAY_MS);
    LossExactly(windows, 0, 3 * DAY_MS, DAY_MS);
    hide WindowOf, ChunksOf, ReplayPieces, LostAt;
    assert HeldBy(windows, Daily, DAY_MS) && ReachesAnEnd(windows, Minute, Span(DAY_MS, 2 * DAY_MS));
  }

  /** Raw begins at noon and the daily tier has ended by midnight: the afternoon is lost. */
  lemma AfternoonIsLost()
    ensures var noon := DAY_MS + 43_200_000;
            LostAt([Window(Raw, noon, 3 * DAY_MS), Window(Daily, 0, DAY_MS)], 0, 3 * DAY_MS, noon)
  {
    var noon := DAY_MS + 43_200_000;
    var windows := [Window(Raw, noon, 3 * DAY_MS), Window(Daily, 0, DAY_MS)];
    TwoWindows(windows[0], windows[1]);
    LossExactly(windows, 0, 3 * DAY_MS, noon);
    hide WindowOf, LostAt;
    assert HeldBy(windows, Raw, noon);
  }

  // ----- query windows -----------------------------------------------------

  /** Longest query window per tier, in days. */
  function WindowDays(tier: Tier): (days: int)
    ensures days > 0
  {
    match tier
    case Raw => 1
    case Minute => 30
    case Hourly => 365
    case Daily => 3650
  }

  function SubWindows(start: int, end: int, step: int): seq<Span>
    requires step > 0
    decreases end - start
  {
    if start >= end then [] else [Span(start, Min(start + step, end))] + SubWindows(Min(start + step, end), end, step)
  }

  method WindowsOf(chunk: Span, days: int) returns (out: seq<Span>)
    requires days > 0
    ensures out == SubWindows(chunk.start, chunk.end, days * DAY_MS)
  {
    var step := days * DAY_MS;
    var cursor := chunk.start;
    out := [];
    while cursor < chunk.end
      invariant out + SubWindows(cursor, chunk.end, step) == SubWindows(chunk.start, chunk.end, step)
      decreases chunk.end - cursor
    {
      var next := Min(cursor + step, chunk.end);
      out := out + [Span(cursor, next)];
      cursor := next;
    }
  }

  /** Query windows tile their chunk, and none is longer than the tier allows. */
  lemma {:induction false} SubWindowsTile(start: int, end: int, step: int)
    requires step > 0 && start <= end
    ensures Tiles(SubWindows(start, end, step), start, end)
    ensures forall i :: 0 <= i < |SubWindows(start, end, step)| ==>
              SubWindows(start, end, step)[i].end - SubWindows(start, end, step)[i].start <= step
    decreases end - start
  {
    if start < end {
      SubWindowsTile(Min(start + step, end), end, step);
      assert SubWindows(start, end, step)[1..] == SubWindows(Min(start + step, end), end, step);
    }
  }

  /** Every window but the last is a whole step. */
  lemma {:induction false} WholeSteps(start: int, end: int, step: int, i: nat)
    requires step > 0 && i < |SubWindows(start, end, step)|
    ensures var ws := SubWindows(start, end, step);
            0 < ws[i].end - ws[i].start <= step && (i < |ws| - 1 ==> ws[i].end - ws[i].start == step)
    decreases i
  {
    var next := Min(start + step, end);
    assert SubWindows(start, end, step) == [Span(start, next)] + SubWindows(next, end, step);
    if i > 0 { WholeSteps(next, end, step, i - 1); }
  }

  /** How long a query window is: a day, thirty, a year or ten, and the last as long as is left. */
  lemma QueryWindowsAre(tier: Tier, start: int, end: int)
    ensures var days := match tier case Raw => 1 case Minute => 30 case Hourly => 365 case Daily => 3650;
            var ws := SubWindows(start, end, WindowDays(tier) * DAY_MS);
            && (forall i :: 0 <= i < |ws| - 1 ==> ws[i].end - ws[i].start == days * 86_400_000)
            && (forall i :: 0 <= i < |ws| ==> 0 < ws[i].end - ws[i].start <= days * 86_400_000)
  {
    var step := WindowDays(tier) * DAY_MS;
    var ws := SubWindows(start, end, step);
    forall i | 0 <= i < |ws|
      ensures 0 < ws[i].end - ws[i].start <= step && (i < |ws| - 1 ==> ws[i].end - ws[i].start == step)
    {
      WholeSteps(start, end, step, i);
    }
  }
}
