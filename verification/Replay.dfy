/**
 * The replay planner of packages/db/src/replay.ts: one chunk per UTC day, each
 * answered by a single tier or reported as a gap.
 */
module Replay {
  import opened Wrappers
  import opened Spans

  datatype Tier = Raw | Minute | Hourly | Daily

  /** The three materialized tiers, finest first. */
  const TIERS: seq<Tier> := [Minute, Hourly, Daily]

  function BucketWidthMs(tier: Tier): int
    requires tier != Raw
  {
    match tier
    case Minute => 60_000
    case Hourly => 3_600_000
    case Daily => 86_400_000
  }

  /** One refresh of a materialized tier over a window, and how many raw rows there were then. */
  datatype Refresh = Refresh(tier: Tier, window: Span, seen: nat)

  /** What a tier still holds, `[from, to)`. */
  datatype Window = Window(tier: Tier, from: int, to: int)

  datatype Chunk = Chunk(tier: Tier, span: Span)

  datatype Plan = Plan(chunks: seq<Chunk>, gaps: seq<Span>)

  /** One piece of a planned span, in time order: the plan before it is split into work and gaps. */
  datatype Piece = Answered(tier: Tier, span: Span) | Gap(span: Span)

  function ChunksOf(pieces: seq<Piece>): seq<Chunk> {
    if pieces == [] then []
    else if pieces[0].Answered? then [Chunk(pieces[0].tier, pieces[0].span)] + ChunksOf(pieces[1..])
    else ChunksOf(pieces[1..])
  }

  function GapsOf(pieces: seq<Piece>): seq<Span> {
    if pieces == [] then []
    else if pieces[0].Gap? then [pieces[0].span] + GapsOf(pieces[1..])
    else GapsOf(pieces[1..])
  }

  function SpansOf(pieces: seq<Piece>): (spans: seq<Span>)
    ensures |spans| == |pieces|
  {
    if pieces == [] then [] else [pieces[0].span] + SpansOf(pieces[1..])
  }

  function PlanOf(pieces: seq<Piece>): Plan { Plan(ChunksOf(pieces), GapsOf(pieces)) }

  function WindowOf(windows: seq<Window>, tier: Tier): Option<Window> {
    if windows == [] then None
    else if windows[0].tier == tier then Some(windows[0])
    else WindowOf(windows[1..], tier)
  }

  /** Where the earliest window begins and the latest ends. */
  function FirstFrom(ws: seq<Window>): int
    requires ws != []
  {
    if |ws| == 1 then ws[0].from else Min(ws[0].from, FirstFrom(ws[1..]))
  }

  function LastTo(ws: seq<Window>): int
    requires ws != []
  {
    if |ws| == 1 then ws[0].to else Max(ws[0].to, LastTo(ws[1..]))
  }

  lemma {:induction false} WindowsNotEmpty(ws: seq<Window>)
    requires ws != [] && forall i :: 0 <= i < |ws| ==> ws[i].from <= ws[i].to
    ensures FirstFrom(ws) <= LastTo(ws)
  {
    if |ws| > 1 { WindowsNotEmpty(ws[1..]); }
  }

  lemma {:induction false} WithinAll(ws: seq<Window>, w: Window)
    requires w in ws
    ensures FirstFrom(ws) <= w.from && w.to <= LastTo(ws)
  {
    if |ws| > 1 && w in ws[1..] { WithinAll(ws[1..], w); }
  }

  // ----- one day -----------------------------------------------------------

  predicate Covers(windows: seq<Window>, tier: Tier, span: Span) {
    var w := WindowOf(windows, tier);
    w.Some? && w.value.from <= span.start && w.value.to >= span.end
  }

  function FinestTierCovering(windows: seq<Window>, span: Span): Option<Tier> {
    if Covers(windows, Minute, span) then Some(Minute)
    else if Covers(windows, Hourly, span) then Some(Hourly)
    else if Covers(windows, Daily, span) then Some(Daily)
    else None
  }

  predicate UsableAtEdge(windows: seq<Window>, tier: Tier, span: Span, isFirst: bool, isLast: bool) {
    var w := WindowOf(windows, tier);
    && w.Some?
    && Max(w.value.from, span.start) < Min(w.value.to, span.end)
    && var reachesEnd := w.value.to >= span.end;
       var reachesStart := w.value.from <= span.start;
       (reachesStart && reachesEnd) || (isFirst && reachesEnd) || (isLast && reachesStart)
  }

  function EdgeTier(windows: seq<Window>, span: Span, isFirst: bool, isLast: bool): Option<Tier> {
    if UsableAtEdge(windows, Minute, span, isFirst, isLast) then Some(Minute)
    else if UsableAtEdge(windows, Hourly, span, isFirst, isLast) then Some(Hourly)
    else if UsableAtEdge(windows, Daily, span, isFirst, isLast) then Some(Daily)
    else None
  }

  function ClipToTier(windows: seq<Window>, tier: Tier, span: Span): Span {
    match WindowOf(windows, tier)
    case None => span
    case Some(w) => Span(Max(w.from, span.start), Min(w.to, span.end))
  }

  /** One day-chunk's outcome: its work, and what it could not answer. */
  function PlanOneChunk(windows: seq<Window>, span: Span, isFirst: bool, isLast: bool): (Option<Chunk>, seq<Span>) {
    if !isFirst && !isLast then
      match FinestTierCovering(windows, span)
      case None => (None, [span])
      case Some(tier) => (Some(Chunk(tier, span)), [])
    else
      match EdgeTier(windows, span, isFirst, isLast)
      case None => (None, [span])
      case Some(tier) =>
        var clip := ClipToTier(windows, tier, span);
        (Some(Chunk(tier, clip)),
         (if clip.start > span.start then [Span(span.start, clip.start)] else [])
         + (if clip.end < span.end then [Span(clip.end, span.end)] else []))
  }

  /** The same outcome as a run of pieces in time order. */
  function DayPieces(windows: seq<Window>, span: Span, isFirst: bool, isLast: bool): seq<Piece> {
    var (chunk, gaps) := PlanOneChunk(windows, span, isFirst, isLast);
    match chunk
    case None => [Gap(span)]
    case Some(c) => Framed(c, span)
  }

  function Before(c: Chunk, span: Span): seq<Piece> {
    if c.span.start > span.start then [Gap(Span(span.start, c.span.start))] else []
  }

  function After(c: Chunk, span: Span): seq<Piece> {
    if c.span.end < span.end then [Gap(Span(c.span.end, span.end))] else []
  }

  /** A chunk with the unanswered rest of its day around it. */
  function Framed(c: Chunk, span: Span): seq<Piece> {
    Before(c, span) + [Answered(c.tier, c.span)] + After(c, span)
  }

  function ReplayPieces(windows: seq<Window>, from: int, cursor: int, end: int): seq<Piece>
    decreases end - cursor
  {
    if cursor >= end then []
    else
      DayPieces(windows, Span(cursor, Min(DayEnd(cursor), end)), cursor == from, DayEnd(cursor) >= end)
      + ReplayPieces(windows, from, DayEnd(cursor), end)
  }

  // ----- the loop ----------------------------------------------------------

  method PlanReplay(from: int, end: int, windows: seq<Window>) returns (plan: Plan)
    ensures plan == PlanOf(ReplayPieces(windows, from, from, end))
  {
    hide PlanOneChunk;
    var chunks: seq<Chunk> := [];
    var gaps: seq<Span> := [];
    var cursor := from;
    ghost var all := PlanOf(ReplayPieces(windows, from, from, end));
    while cursor < end
      invariant all.chunks == chunks + ChunksOf(ReplayPieces(windows, from, cursor, end))
      invariant all.gaps == gaps + GapsOf(ReplayPieces(windows, from, cursor, end))
      decreases end - cursor
    {
      var dayEnd := DayEnd(cursor);
      var span := Span(cursor, Min(dayEnd, end));
      var planned := PlanOneChunk(windows, span, cursor == from, dayEnd >= end);
      ReplayStep(windows, from, cursor, end);
      if planned.0.Some? { chunks := chunks + [planned.0.value]; }
      gaps := gaps + planned.1;
      cursor := dayEnd;
    }
    plan := Plan(chunks, gaps);
  }

  lemma ReplayStep(windows: seq<Window>, from: int, cursor: int, end: int)
    requires cursor < end
    ensures var day := Span(cursor, Min(DayEnd(cursor), end));
            var (chunk, gaps) := PlanOneChunk(windows, day, cursor == from, DayEnd(cursor) >= end);
            var now := ReplayPieces(windows, from, cursor, end);
            var later := ReplayPieces(windows, from, DayEnd(cursor), end);
            && ChunksOf(now) == (if chunk.Some? then [chunk.value] else []) + ChunksOf(later)
            && GapsOf(now) == gaps + GapsOf(later)
  {
    var span := Span(cursor, Min(DayEnd(cursor), end));
    DayPiecesMatch(windows, span, cursor == from, DayEnd(cursor) >= end);
    SplitConcat(DayPieces(windows, span, cursor == from, DayEnd(cursor) >= end),
                ReplayPieces(windows, from, DayEnd(cursor), end));
  }

  lemma DayPiecesMatch(windows: seq<Window>, span: Span, isFirst: bool, isLast: bool)
    ensures var (chunk, gaps) := PlanOneChunk(windows, span, isFirst, isLast);
            var pieces := DayPieces(windows, span, isFirst, isLast);
            GapsOf(pieces) == gaps && ChunksOf(pieces) == if chunk.Some? then [chunk.value] else []
  {
    var (chunk, gaps) := PlanOneChunk(windows, span, isFirst, isLast);
    if chunk.Some? {
      var c := chunk.value;
      SplitConcat(Before(c, span) + [Answered(c.tier, c.span)], After(c, span));
      SplitConcat(Before(c, span), [Answered(c.tier, c.span)]);
    }
  }

  lemma SplitConcat(a: seq<Piece>, b: seq<Piece>)
    ensures ChunksOf(a + b) == ChunksOf(a) + ChunksOf(b)
    ensures GapsOf(a + b) == GapsOf(a) + GapsOf(b)
    ensures SpansOf(a + b) == SpansOf(a) + SpansOf(b)
  {
    ChunksConcat(a, b);
    GapsConcat(a, b);
    SpansConcat(a, b);
  }

  lemma {:induction false} ChunksConcat(a: seq<Piece>, b: seq<Piece>)
    ensures ChunksOf(a + b) == ChunksOf(a) + ChunksOf(b)
  {
    if a == [] {
      assert a + b == b;
    } else {
      assert (a + b)[1..] == a[1..] + b;
      ChunksConcat(a[1..], b);
    }
  }

  lemma {:induction false} GapsConcat(a: seq<Piece>, b: seq<Piece>)
    ensures GapsOf(a + b) == GapsOf(a) + GapsOf(b)
  {
    if a == [] {
      assert a + b == b;
    } else {
      assert (a + b)[1..] == a[1..] + b;
      GapsConcat(a[1..], b);
    }
  }

  lemma {:induction false} SpansConcat(a: seq<Piece>, b: seq<Piece>)
    ensures SpansOf(a + b) == SpansOf(a) + SpansOf(b)
  {
    if a == [] {
      assert a + b == b;
    } else {
      assert (a + b)[1..] == a[1..] + b;
      SpansConcat(a[1..], b);
    }
  }

  // ----- what the plan means -----------------------------------------------

  lemma FramedTiles(c: Chunk, span: Span)
    requires span.start <= c.span.start < c.span.end <= span.end
    ensures Tiles(SpansOf(Framed(c, span)), span.start, span.end)
  {
    var answer := Answered(c.tier, c.span);
    SplitConcat(Before(c, span) + [answer], After(c, span));
    SplitConcat(Before(c, span), [answer]);
    TilesConcat(SpansOf(Before(c, span)), SpansOf([answer]), span.start, c.span.start, c.span.end);
    TilesConcat(SpansOf(Before(c, span)) + SpansOf([answer]), SpansOf(After(c, span)),
                span.start, c.span.end, span.end);
  }

  lemma DayTiles(windows: seq<Window>, span: Span, isFirst: bool, isLast: bool)
    requires span.start < span.end
    ensures Tiles(SpansOf(DayPieces(windows, span, isFirst, isLast)), span.start, span.end)
  {
    var (chunk, gaps) := PlanOneChunk(windows, span, isFirst, isLast);
    if chunk.Some? { FramedTiles(chunk.value, span); }
  }

  /** Chunks and gaps together partition the requested span, in order and without overlap. */
  lemma {:induction false} ReplayTiles(windows: seq<Window>, from: int, cursor: int, end: int)
    requires cursor <= end
    ensures Tiles(SpansOf(ReplayPieces(windows, from, cursor, end)), cursor, end)
    decreases end - cursor
  {
    if cursor < end {
      var stop := Min(DayEnd(cursor), end);
      var pieces := DayPieces(windows, Span(cursor, stop), cursor == from, DayEnd(cursor) >= end);
      var later := ReplayPieces(windows, from, DayEnd(cursor), end);
      DayTiles(windows, Span(cursor, stop), cursor == from, DayEnd(cursor) >= end);
      SplitConcat(pieces, later);
      if DayEnd(cursor) <= end { ReplayTiles(windows, from, DayEnd(cursor), end); }
      TilesConcat(SpansOf(pieces), SpansOf(later), cursor, stop, end);
    }
  }

  /** Every chunk lies inside the window of the tier that answers it. */
  predicate AnsweredWithin(windows: seq<Window>, pieces: seq<Piece>) {
    forall i :: 0 <= i < |pieces| && pieces[i].Answered? ==>
      pieces[i].tier != Raw && Covers(windows, pieces[i].tier, pieces[i].span)
  }

  lemma {:induction false} ReplayAnswersFromWindows(windows: seq<Window>, from: int, cursor: int, end: int)
    ensures AnsweredWithin(windows, ReplayPieces(windows, from, cursor, end))
    decreases end - cursor
  {
    if cursor < end { ReplayAnswersFromWindows(windows, from, DayEnd(cursor), end); }
  }

  predicate ChunksAscend(chunks: seq<Chunk>) {
    forall i, j :: 0 <= i < j < |chunks| ==> chunks[i].span.end <= chunks[j].span.start
  }

  predicate ChunksForward(chunks: seq<Chunk>) {
    forall i :: 0 <= i < |chunks| ==> chunks[i].span.start < chunks[i].span.end
  }

  lemma {:induction false} TilesAscend(pieces: seq<Piece>, from: int, end: int)
    requires Tiles(SpansOf(pieces), from, end)
    ensures forall i :: 0 <= i < |ChunksOf(pieces)| ==>
              from <= ChunksOf(pieces)[i].span.start && ChunksOf(pieces)[i].span.end <= end
    ensures ChunksAscend(ChunksOf(pieces)) && ChunksForward(ChunksOf(pieces))
  {
    if pieces != [] {
      assert SpansOf(pieces)[1..] == SpansOf(pieces[1..]);
      TilesGoForward(SpansOf(pieces[1..]), SpansOf(pieces)[0].end, end);
      TilesAscend(pieces[1..], SpansOf(pieces)[0].end, end);
    }
  }

  // ----- which tier answers an instant ---------------------------------------

  /** How many chunks of `tier` hold the instant. */
  function TierHits(chunks: seq<Chunk>, tier: Tier, t: int): nat {
    if chunks == [] then 0
    else (if chunks[0].tier == tier && chunks[0].span.Holds(t) then 1 else 0) + TierHits(chunks[1..], tier, t)
  }

  lemma {:induction false} TierHitsConcat(a: seq<Chunk>, b: seq<Chunk>, tier: Tier, t: int)
    ensures TierHits(a + b, tier, t) == TierHits(a, tier, t) + TierHits(b, tier, t)
  {
    if a == [] {
      assert a + b == b;
    } else {
      assert (a + b)[1..] == a[1..] + b;
      TierHitsConcat(a[1..], b, tier, t);
    }
  }

  lemma {:induction false} TierHitsBounded(pieces: seq<Piece>, tier: Tier, t: int)
    ensures TierHits(ChunksOf(pieces), tier, t) <= Hits(SpansOf(pieces), t)
  {
    if pieces != [] {
      TierHitsBounded(pieces[1..], tier, t);
      if pieces[0].Answered? {
        assert ChunksOf(pieces)[1..] == ChunksOf(pieces[1..]);
      }
      assert SpansOf(pieces)[1..] == SpansOf(pieces[1..]);
    }
  }

  /** The piece of the span's days that holds `t`. */
  function DayPieceOf(from: int, end: int, t: int): Span {
    Span(Max(from, t / DAY_MS * DAY_MS), Min(DayEnd(t), end))
  }

  predicate HeldBy(windows: seq<Window>, tier: Tier, t: int) {
    var w := WindowOf(windows, tier);
    w.Some? && w.value.from <= t < w.value.to
  }

  lemma {:induction false} NoRawInReplay(windows: seq<Window>, from: int, cursor: int, end: int, t: int)
    ensures TierHits(ChunksOf(ReplayPieces(windows, from, cursor, end)), Raw, t) == 0
    decreases end - cursor
  {
    if cursor < end {
      ReplayStep(windows, from, cursor, end);
      NoRawInReplay(windows, from, DayEnd(cursor), end, t);
      var day := Span(cursor, Min(DayEnd(cursor), end));
      var chunk := PlanOneChunk(windows, day, cursor == from, DayEnd(cursor) >= end).0;
      TierHitsConcat(if chunk.Some? then [chunk.value] else [],
                     ChunksOf(ReplayPieces(windows, from, DayEnd(cursor), end)), Raw, t);
    }
  }

  /**
   * Whether the tier can answer a day piece of `[from, end)`: it covers the piece, or
   * the piece is the first (or the last) of the span and the tier reaches from
   * somewhere inside it to its end (or from its start).
   */
  predicate Serves(windows: seq<Window>, tier: Tier, day: Span, from: int, end: int) {
    var w := WindowOf(windows, tier);
    && w.Some? && Max(w.value.from, day.start) < Min(w.value.to, day.end)
    && (w.value.from <= day.start || day.start == from)
    && (day.end <= w.value.to || day.end == end)
    && (w.value.from <= day.start || day.end <= w.value.to)
  }

  /** The instant goes to the finest tier that can answer its day piece, if that tier holds it. */
  predicate Answers(windows: seq<Window>, tier: Tier, from: int, end: int, t: int) {
    var day := DayPieceOf(from, end, t);
    && tier != Raw && HeldBy(windows, tier, t) && Serves(windows, tier, day, from, end)
    && forall finer: Tier :: finer != Raw && BucketWidthMs(finer) < BucketWidthMs(tier) ==>
         !Serves(windows, finer, day, from, end)
  }

  /** One day: what its only chunk holds. */
  lemma DayAnswers(windows: seq<Window>, day: Span, from: int, end: int, tier: Tier, t: int)
    requires day.Holds(t) && tier != Raw
    ensures TierHits(ChunksOf(DayPieces(windows, day, day.start == from, day.end == end)), tier, t)
         == if && HeldBy(windows, tier, t) && Serves(windows, tier, day, from, end)
               && forall finer: Tier :: finer != Raw && BucketWidthMs(finer) < BucketWidthMs(tier) ==>
                    !Serves(windows, finer, day, from, end)
            then 1 else 0
  {
    var isFirst, isLast := day.start == from, day.end == end;
    DayPiecesMatch(windows, day, isFirst, isLast);
    forall x: Tier | x != Raw
      ensures Serves(windows, x, day, from, end) <==> UsableAtEdge(windows, x, day, isFirst, isLast)
      ensures !isFirst && !isLast ==> (UsableAtEdge(windows, x, day, isFirst, isLast) <==> Covers(windows, x, day))
    {
    }
    var chunk := PlanOneChunk(windows, day, isFirst, isLast).0;
    if chunk.Some? { assert [chunk.value][1..] == []; }
    hide ChunksOf, DayPieces, Serves, UsableAtEdge;
    match tier { case Minute => case Hourly => case Daily => }
  }

  /** The pieces of the day that the cursor stands on. */
  function Today(windows: seq<Window>, from: int, cursor: int, end: int): seq<Piece> {
    DayPieces(windows, Span(cursor, Min(DayEnd(cursor), end)), cursor == from, DayEnd(cursor) >= end)
  }

  lemma HitsByDay(windows: seq<Window>, from: int, cursor: int, end: int, tier: Tier, t: int)
    requires cursor < end
    ensures TierHits(ChunksOf(ReplayPieces(windows, from, cursor, end)), tier, t)
         == TierHits(ChunksOf(Today(windows, from, cursor, end)), tier, t)
            + TierHits(ChunksOf(ReplayPieces(windows, from, DayEnd(cursor), end)), tier, t)
  {
    var today, later := Today(windows, from, cursor, end), ReplayPieces(windows, from, DayEnd(cursor), end);
    assert ReplayPieces(windows, from, cursor, end) == today + later;
    SplitConcat(today, later);
    TierHitsConcat(ChunksOf(today), ChunksOf(later), tier, t);
  }

  lemma HitsToday(windows: seq<Window>, from: int, cursor: int, end: int, tier: Tier, t: int)
    requires cursor <= t < Min(DayEnd(cursor), end) && tier != Raw
    requires cursor == from || (from < cursor && cursor % DAY_MS == 0)
    ensures TierHits(ChunksOf(Today(windows, from, cursor, end)), tier, t)
         == if Answers(windows, tier, from, end, t) then 1 else 0
  {
    hide Serves, ChunksOf, DayPieces;
    var day := Span(cursor, Min(DayEnd(cursor), end));
    assert DayPieceOf(from, end, t) == day;
    DayAnswers(windows, day, from, end, tier, t);
  }

  /** Only the day of an instant can hold it. */
  lemma OtherDays(windows: seq<Window>, from: int, cursor: int, end: int, tier: Tier, t: int)
    requires cursor < end
    ensures t >= DayEnd(cursor) ==> TierHits(ChunksOf(Today(windows, from, cursor, end)), tier, t) == 0
    ensures t < DayEnd(cursor) ==> TierHits(ChunksOf(ReplayPieces(windows, from, DayEnd(cursor), end)), tier, t) == 0
  {
    hide DayPieces, ChunksOf;
    var day, later := Span(cursor, Min(DayEnd(cursor), end)), ReplayPieces(windows, from, DayEnd(cursor), end);
    DayTiles(windows, day, cursor == from, DayEnd(cursor) >= end);
    TilesHitOnce(SpansOf(Today(windows, from, cursor, end)), cursor, day.end, t);
    TierHitsBounded(Today(windows, from, cursor, end), tier, t);
    if DayEnd(cursor) <= end {
      ReplayTiles(windows, from, DayEnd(cursor), end);
      TilesHitOnce(SpansOf(later), DayEnd(cursor), end, t);
    }
    TierHitsBounded(later, tier, t);
  }

  /**
   * Which tier answers an instant: a chunk of the tier holds it if and only if the
   * tier holds it, can answer its day piece, and no finer tier can.
   */
  lemma {:induction false} ReplayAnswersExactly(windows: seq<Window>, from: int, cursor: int, end: int, tier: Tier,
                                                t: int)
    requires cursor <= t < end && tier != Raw && (cursor == from || (from < cursor && cursor % DAY_MS == 0))
    ensures TierHits(ChunksOf(ReplayPieces(windows, from, cursor, end)), tier, t)
         == if Answers(windows, tier, from, end, t) then 1 else 0
    decreases end - cursor
  {
    hide Today, ReplayPieces, Answers, ChunksOf;
    HitsByDay(windows, from, cursor, end, tier, t);
    OtherDays(windows, from, cursor, end, tier, t);
    if t < DayEnd(cursor) {
      HitsToday(windows, from, cursor, end, tier, t);
    } else {
      ReplayAnswersExactly(windows, from, DayEnd(cursor), end, tier, t);
    }
  }

  /** Every piece that holds an instant is a chunk of one tier or a gap. */
  lemma {:induction false} ChunkOrGap(pieces: seq<Piece>, t: int)
    ensures var chunks := ChunksOf(pieces);
            Hits(SpansOf(pieces), t)
            == TierHits(chunks, Raw, t) + TierHits(chunks, Minute, t) + TierHits(chunks, Hourly, t)
               + TierHits(chunks, Daily, t) + Hits(GapsOf(pieces), t)
  {
    if pieces != [] {
      ChunkOrGap(pieces[1..], t);
      assert SpansOf(pieces)[1..] == SpansOf(pieces[1..]);
      if pieces[0].Answered? {
        assert ChunksOf(pieces)[1..] == ChunksOf(pieces[1..]);
      } else {
        assert GapsOf(pieces)[1..] == GapsOf(pieces[1..]);
      }
    }
  }

  lemma {:induction false} HeldIsHit(spans: seq<Span>, t: int)
    ensures Hits(spans, t) > 0 <==> exists s :: s in spans && s.Holds(t)
  {
    if spans != [] { HeldIsHit(spans[1..], t); }
  }
}
