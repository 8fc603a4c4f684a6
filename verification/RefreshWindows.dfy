/**
 * `refreshWindows` of packages/db/src/backfill.ts: the bounded windows an
 * aggregate is refreshed over. The engine materializes only the buckets a window
 * fully contains and refuses a window narrower than one bucket.
 */
module RefreshWindows {
  import opened Spans
  import opened Replay
  import opened ExportPlan

  function FloorTo(t: int, width: int): int
    requires width > 0
  {
    t / width * width
  }

  function CeilTo(t: int, width: int): int
    requires width > 0
  {
    -(-t / width) * width
  }

  function PaddedStart(span: Span, tier: Tier): int
    requires tier != Raw
  {
    FloorTo(span.start - BucketWidthMs(tier), BucketWidthMs(tier))
  }

  function PaddedEnd(span: Span, tier: Tier): int
    requires tier != Raw
  {
    CeilTo(span.end + BucketWidthMs(tier), BucketWidthMs(tier))
  }

  /** The chunk size in milliseconds, never under a day. */
  function Step(chunkMs: int): (step: int)
    ensures step >= DAY_MS && (chunkMs >= DAY_MS ==> step == chunkMs)
  {
    Max(DAY_MS, chunkMs)
  }

  /** A last window narrower than one bucket joins the one before it. */
  function Merged(windows: seq<Span>, width: int): seq<Span> {
    var n := |windows|;
    if n >= 2 && windows[n - 1].end - windows[n - 1].start < width
    then windows[..n - 2] + [Span(windows[n - 2].start, windows[n - 1].end)]
    else windows
  }

  function Plan(span: Span, tier: Tier, chunkMs: int): seq<Span>
    requires tier != Raw
  {
    if span.end <= span.start then []
    else Merged(SubWindows(PaddedStart(span, tier), PaddedEnd(span, tier), Step(chunkMs)), BucketWidthMs(tier))
  }

  method RefreshWindows(span: Span, tier: Tier, chunkMs: int) returns (windows: seq<Span>)
    requires tier != Raw
    ensures windows == Plan(span, tier, chunkMs)
  {
    if span.end <= span.start { return []; }
    var pad := BucketWidthMs(tier);
    var from := FloorTo(span.start - pad, pad);
    var end := CeilTo(span.end + pad, pad);
    var step := Step(chunkMs);
    windows := Cut(from, end, step);
    var n := |windows|;
    if n >= 2 {
      var previous, last := windows[n - 2], windows[n - 1];
      if last.end - last.start < pad {
        windows := windows[..n - 2] + [Span(previous.start, last.end)];
      }
    }
  }

  /** The cursor loop. */
  method Cut(from: int, end: int, step: int) returns (windows: seq<Span>)
    requires step > 0
    ensures windows == SubWindows(from, end, step)
  {
    windows := [];
    var cursor := from;
    while cursor < end
      invariant windows + SubWindows(cursor, end, step) == SubWindows(from, end, step)
      decreases end - cursor
    {
      AfterEnd(cursor + step, end, step);
      windows := windows + [Span(cursor, Min(cursor + step, end))];
      cursor := cursor + step;
    }
  }

  /** The loop overshoots its end where the query windows stop at it. */
  lemma AfterEnd(cursor: int, end: int, step: int)
    requires step > 0
    ensures SubWindows(Min(cursor, end), end, step) == SubWindows(cursor, end, step)
  {
  }

  // ----- the padded span ----------------------------------------------------

  lemma Multiples(q: int, r: int, tier: Tier)
    requires tier != Raw && 0 <= r < BucketWidthMs(tier)
    ensures var t := q * BucketWidthMs(tier) + r;
            t % BucketWidthMs(tier) == r && FloorTo(t, BucketWidthMs(tier)) == t - r
  {
    match tier
    case Minute => assert (q * 60_000 + r) / 60_000 == q;
    case Hourly => assert (q * 3_600_000 + r) / 3_600_000 == q;
    case Daily => assert (q * 86_400_000 + r) / 86_400_000 == q;
  }

  /** Bucket boundaries a whole bucket or more outside the span, and less than two. */
  lemma PaddingIsAligned(span: Span, tier: Tier)
    requires tier != Raw
    ensures var w := BucketWidthMs(tier);
            && PaddedStart(span, tier) % w == 0 && PaddedEnd(span, tier) % w == 0
            && span.start - 2 * w < PaddedStart(span, tier) <= span.start - w
            && span.end + w <= PaddedEnd(span, tier) < span.end + 2 * w
  {
    var w := BucketWidthMs(tier);
    FloorIsClose(span.start - w, tier);
    FloorIsClose(-(span.end + w), tier);
    Multiples(-(-(span.end + w) / w), 0, tier);
  }

  lemma FloorIsClose(t: int, tier: Tier)
    requires tier != Raw
    ensures var w := BucketWidthMs(tier); FloorTo(t, w) % w == 0 && t - w < FloorTo(t, w) <= t
  {
    Multiples(t / BucketWidthMs(tier), 0, tier);
  }

  // ----- contiguous, and never narrower than a bucket -------------------------

  predicate AtLeast(windows: seq<Span>, width: int) {
    forall i :: 0 <= i < |windows| ==> windows[i].end - windows[i].start >= width
  }

  /** Every window but the last is a full step. */
  lemma {:induction false} FullSteps(start: int, end: int, step: int)
    requires step > 0 && start < end
    ensures var ws := SubWindows(start, end, step);
            && ws != [] && ws[0].start == start && ws[|ws| - 1].end == end
            && (|ws| == 1 <==> end - start <= step)
            && forall i :: 0 <= i < |ws| - 1 ==> ws[i].end - ws[i].start == step
    decreases end - start
  {
    if end - start > step { FullSteps(start + step, end, step); }
  }

  lemma {:induction false} MergedTiles(windows: seq<Span>, width: int, from: int, end: int)
    requires Tiles(windows, from, end)
    ensures Tiles(Merged(windows, width), from, end)
    decreases |windows|
  {
    var n := |windows|;
    if n >= 2 && windows[n - 1].end - windows[n - 1].start < width {
      if n == 2 {
        assert windows[1..][1..] == [];
        var joined := Merged(windows, width);
        assert joined == [Span(windows[0].start, windows[1].end)] && joined[1..] == [];
      } else {
        MergedTiles(windows[1..], width, windows[0].end, end);
        assert Merged(windows, width)[1..] == Merged(windows[1..], width);
      }
    }
  }

  /**
   * For every chunk size the windows are back to back, reach at least one bucket
   * past both ends of the span, and are all at least one bucket wide.
   */
  lemma WindowsReachAndFit(span: Span, tier: Tier, chunkMs: int)
    requires tier != Raw && span.start < span.end
    ensures var w := BucketWidthMs(tier);
            && Tiles(Plan(span, tier, chunkMs), PaddedStart(span, tier), PaddedEnd(span, tier))
            && PaddedStart(span, tier) <= span.start - w && span.end + w <= PaddedEnd(span, tier)
            && AtLeast(Plan(span, tier, chunkMs), w)
  {
    var from, end, step, w := PaddedStart(span, tier), PaddedEnd(span, tier), Step(chunkMs), BucketWidthMs(tier);
    PaddingIsAligned(span, tier);
    SubWindowsTile(from, end, step);
    FullSteps(from, end, step);
    TilesTouch(SubWindows(from, end, step), from, end);
    MergedTiles(SubWindows(from, end, step), w, from, end);
    MergedFits(SubWindows(from, end, step), w, step);
  }

  /** Full steps and one remainder, merged when it is narrow. */
  lemma MergedFits(windows: seq<Span>, width: int, step: int)
    requires 0 < width <= step && windows != []
    requires forall i :: 0 <= i < |windows| - 1 ==> windows[i].end - windows[i].start == step
    requires forall i :: 0 <= i < |windows| - 1 ==> windows[i].end == windows[i + 1].start
    requires windows[|windows| - 1].start < windows[|windows| - 1].end
    requires |windows| == 1 ==> windows[0].end - windows[0].start >= width
    ensures AtLeast(Merged(windows, width), width)
  {
    var n, merged := |windows|, Merged(windows, width);
    forall i | 0 <= i < |merged| ensures merged[i].end - merged[i].start >= width {
      if i < n - 2 { assert merged[i] == windows[i]; }
    }
  }

  lemma {:induction false} TilesTouch(windows: seq<Span>, from: int, end: int)
    requires Tiles(windows, from, end)
    ensures forall i :: 0 <= i < |windows| - 1 ==> windows[i].end == windows[i + 1].start
    ensures forall i :: 0 <= i < |windows| ==> windows[i].start < windows[i].end
  {
    if windows != [] { TilesTouch(windows[1..], windows[0].end, end); }
  }

  // ----- whole days: every bucket in exactly one window -----------------------

  /** How many windows contain the whole bucket that starts at `b`. */
  function Containing(windows: seq<Span>, b: int, width: int): nat {
    if windows == [] then 0
    else (if windows[0].start <= b && b + width <= windows[0].end then 1 else 0) + Containing(windows[1..], b, width)
  }

  predicate Aligned(windows: seq<Span>, tier: Tier)
    requires tier != Raw
  {
    var w := BucketWidthMs(tier);
    forall i :: 0 <= i < |windows| ==> windows[i].start % w == 0 && windows[i].end % w == 0
  }

  lemma NextBoundary(a: int, b: int, tier: Tier)
    requires tier != Raw && a % BucketWidthMs(tier) == 0 && b % BucketWidthMs(tier) == 0 && a < b
    ensures a + BucketWidthMs(tier) <= b
  {
    match tier
    case Minute =>
    case Hourly =>
    case Daily =>
  }

  lemma StepBoundary(a: int, b: int, tier: Tier)
    requires tier != Raw && a % BucketWidthMs(tier) == 0
    ensures (a + b) % BucketWidthMs(tier) == b % BucketWidthMs(tier)
  {
    var w := BucketWidthMs(tier);
    Multiples(a / w + b / w, b % w, tier);
    Distribute(a / w, b / w, w);
  }

  lemma Distribute(x: int, y: int, w: int)
    ensures (x + y) * w == x * w + y * w
  {
  }

  lemma {:induction false} AlignedContainsOnce(windows: seq<Span>, tier: Tier, from: int, end: int, b: int)
    requires tier != Raw && Aligned(windows, tier) && Tiles(windows, from, end)
    requires b % BucketWidthMs(tier) == 0
    ensures Containing(windows, b, BucketWidthMs(tier)) == if from <= b < end then 1 else 0
  {
    if windows != [] {
      TilesGoForward(windows[1..], windows[0].end, end);
      assert forall i :: 0 <= i < |windows[1..]| ==> windows[1..][i] == windows[i + 1];
      AlignedContainsOnce(windows[1..], tier, windows[0].end, end, b);
      if b < windows[0].end { NextBoundary(b, windows[0].end, tier); }
    }
  }

  lemma {:induction false} StepsAligned(start: int, end: int, step: int, tier: Tier)
    requires tier != Raw && step > 0 && step % BucketWidthMs(tier) == 0
    requires start % BucketWidthMs(tier) == 0 && end % BucketWidthMs(tier) == 0
    ensures Aligned(SubWindows(start, end, step), tier)
    decreases end - start
  {
    if start < end {
      StepBoundary(start, step, tier);
      StepsAligned(Min(start + step, end), end, step, tier);
    }
  }

  /** On bucket boundaries no window is narrower than a bucket, so nothing is merged. */
  lemma {:induction false} AlignedNeedsNoMerge(windows: seq<Span>, tier: Tier, from: int, end: int)
    requires tier != Raw && Aligned(windows, tier) && Tiles(windows, from, end)
    ensures Merged(windows, BucketWidthMs(tier)) == windows
  {
    var n := |windows|;
    if n >= 2 {
      LastIsForward(windows, from, end);
      NextBoundary(windows[n - 1].start, windows[n - 1].end, tier);
    }
  }

  lemma {:induction false} LastIsForward(windows: seq<Span>, from: int, end: int)
    requires Tiles(windows, from, end) && windows != []
    ensures windows[|windows| - 1].start < windows[|windows| - 1].end == end
  {
    if |windows| > 1 { LastIsForward(windows[1..], windows[0].end, end); }
  }

  /**
   * With a step of whole buckets (every whole number of days) the merge never
   * fires, every window is aligned, and every bucket of the padded span lies
   * wholly in exactly one window.
   */
  lemma WholeStepsCoverOnce(span: Span, tier: Tier, chunkMs: int, b: int)
    requires tier != Raw && span.start < span.end && Step(chunkMs) % BucketWidthMs(tier) == 0
    requires b % BucketWidthMs(tier) == 0
    ensures var w := BucketWidthMs(tier);
            && Plan(span, tier, chunkMs) == SubWindows(PaddedStart(span, tier), PaddedEnd(span, tier), Step(chunkMs))
            && Aligned(Plan(span, tier, chunkMs), tier)
            && Containing(Plan(span, tier, chunkMs), b, w)
               == if PaddedStart(span, tier) <= b < PaddedEnd(span, tier) then 1 else 0
  {
    var from, end, step := PaddedStart(span, tier), PaddedEnd(span, tier), Step(chunkMs);
    PaddingIsAligned(span, tier);
    SubWindowsTile(from, end, step);
    StepsAligned(from, end, step, tier);
    AlignedNeedsNoMerge(SubWindows(from, end, step), tier, from, end);
    AlignedContainsOnce(SubWindows(from, end, step), tier, from, end, b);
  }

  // ----- exactly which chunk sizes leave no bucket out ------------------------

  /** A bucket with part of the span in it. */
  predicate Touches(b: int, span: Span, width: int)
    requires width > 0
  {
    b % width == 0 && b <= span.end && span.start < b + width
  }

  ghost predicate CoversEveryBucket(span: Span, tier: Tier, chunkMs: int)
    requires tier != Raw
  {
    forall b :: Touches(b, span, BucketWidthMs(tier)) ==>
        Containing(Plan(span, tier, chunkMs), b, BucketWidthMs(tier)) >= 1
  }

  lemma TouchedIsInside(span: Span, tier: Tier, b: int)
    requires tier != Raw && span.start < span.end && Touches(b, span, BucketWidthMs(tier))
    ensures PaddedStart(span, tier) <= b && b + BucketWidthMs(tier) <= PaddedEnd(span, tier)
  {
    PaddingIsAligned(span, tier);
    NextBoundary(b, PaddedEnd(span, tier), tier);
  }

  lemma ShortSpanIsOneWindow(span: Span, tier: Tier, chunkMs: int)
    requires tier != Raw && span.start < span.end
    requires PaddedEnd(span, tier) - PaddedStart(span, tier) < Step(chunkMs) + BucketWidthMs(tier)
    ensures Plan(span, tier, chunkMs) == [Span(PaddedStart(span, tier), PaddedEnd(span, tier))]
  {
    var from, end, step := PaddedStart(span, tier), PaddedEnd(span, tier), Step(chunkMs);
    PaddingIsAligned(span, tier);
    if end - from > step {
      assert SubWindows(from + step, end, step) == [Span(from + step, end)];
      assert SubWindows(from, end, step) == [Span(from, from + step), Span(from + step, end)];
    } else {
      assert SubWindows(from, end, step) == [Span(from, end)];
    }
  }

  lemma {:induction false} NoneContains(windows: seq<Span>, from: int, end: int, b: int, width: int)
    requires Tiles(windows, from, end) && b < from
    ensures Containing(windows, b, width) == 0
  {
    if windows != [] { NoneContains(windows[1..], windows[0].end, end, b, width); }
  }

  /** The bucket astride the first seam, when the step is not whole buckets. */
  lemma SeamBucketIsLost(span: Span, tier: Tier, chunkMs: int)
    requires tier != Raw && span.start < span.end && Step(chunkMs) % BucketWidthMs(tier) != 0
    requires PaddedEnd(span, tier) - PaddedStart(span, tier) >= Step(chunkMs) + BucketWidthMs(tier)
    ensures !CoversEveryBucket(span, tier, chunkMs)
  {
    var from, end, step, w := PaddedStart(span, tier), PaddedEnd(span, tier), Step(chunkMs), BucketWidthMs(tier);
    var ws, plan := SubWindows(from, end, step), Plan(span, tier, chunkMs);
    var b := FloorTo(from + step, w);
    SeamTouches(span, tier, chunkMs);
    WindowsReachAndFit(span, tier, chunkMs);
    FullSteps(from, end, step);
    assert ws[0] == Span(from, from + step);
    if |ws| == 2 { assert ws[1] == Span(from + step, end); }
    assert plan[0] == ws[0];
    NoneContains(plan[1..], from + step, end, b, w);
    assert Containing(plan, b, w) == 0;
  }

  lemma SeamTouches(span: Span, tier: Tier, chunkMs: int)
    requires tier != Raw && span.start < span.end && Step(chunkMs) % BucketWidthMs(tier) != 0
    requires PaddedEnd(span, tier) - PaddedStart(span, tier) >= Step(chunkMs) + BucketWidthMs(tier)
    ensures var w, seam := BucketWidthMs(tier), PaddedStart(span, tier) + Step(chunkMs);
            FloorTo(seam, w) < seam < FloorTo(seam, w) + w && Touches(FloorTo(seam, w), span, w)
  {
    PaddingIsAligned(span, tier);
    var seam := PaddedStart(span, tier) + Step(chunkMs);
    OffBoundary(PaddedStart(span, tier), Step(chunkMs), tier);
    NextBoundary(FloorTo(seam, BucketWidthMs(tier)), PaddedEnd(span, tier), tier);
    LastBucket(span, tier, FloorTo(seam, BucketWidthMs(tier)));
  }

  lemma OffBoundary(a: int, step: int, tier: Tier)
    requires tier != Raw && a % BucketWidthMs(tier) == 0 && step % BucketWidthMs(tier) != 0 && step >= DAY_MS
    ensures var w := BucketWidthMs(tier);
            FloorTo(a + step, w) % w == 0 && a + w <= FloorTo(a + step, w) < a + step < FloorTo(a + step, w) + w
  {
    var w := BucketWidthMs(tier);
    StepBoundary(a, step, tier);
    Multiples((a + step) / w, (a + step) % w, tier);
    Multiples((a + step) / w, 0, tier);
    NextBoundary(a, FloorTo(a + step, w), tier);
  }

  lemma LastBucket(span: Span, tier: Tier, b: int)
    requires tier != Raw && b % BucketWidthMs(tier) == 0 && b + BucketWidthMs(tier) < PaddedEnd(span, tier)
    ensures b <= span.end
  {
    match tier
    case Minute =>
    case Hourly =>
    case Daily =>
  }

  /**
   * Every bucket the span touches lies wholly inside some window if and only if
   * the step is a whole number of buckets, or the padded span is so short that
   * there is a single window.
   */
  lemma CoverageExactly(span: Span, tier: Tier, chunkMs: int)
    requires tier != Raw && span.start < span.end
    ensures CoversEveryBucket(span, tier, chunkMs)
       <==> Step(chunkMs) % BucketWidthMs(tier) == 0
            || PaddedEnd(span, tier) - PaddedStart(span, tier) < Step(chunkMs) + BucketWidthMs(tier)
  {
    var w, plan := BucketWidthMs(tier), Plan(span, tier, chunkMs);
    if Step(chunkMs) % w == 0 {
      forall b | Touches(b, span, w) ensures Containing(plan, b, w) >= 1 {
        TouchedIsInside(span, tier, b);
        WholeStepsCoverOnce(span, tier, chunkMs, b);
      }
    } else if PaddedEnd(span, tier) - PaddedStart(span, tier) < Step(chunkMs) + w {
      ShortSpanIsOneWindow(span, tier, chunkMs);
      forall b | Touches(b, span, w) ensures Containing(plan, b, w) >= 1 { TouchedIsInside(span, tier, b); }
    } else {
      SeamBucketIsLost(span, tier, chunkMs);
    }
  }

  /** An empty or reversed span has no windows at all, never an unbounded one. */
  lemma NothingToRefresh(span: Span, tier: Tier, chunkMs: int)
    requires tier != Raw
    ensures Plan(span, tier, chunkMs) == [] <==> span.end <= span.start
  {
    if span.start < span.end { WindowsReachAndFit(span, tier, chunkMs); }
  }
}
