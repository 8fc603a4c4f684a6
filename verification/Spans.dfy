/** Half-open time spans in integer milliseconds, and sequences of them that tile a larger one. */
module Spans {

  const DAY_MS := 86_400_000

  const MINUTE_MS := 60_000

  datatype Span = Span(start: int, end: int) {
    predicate Holds(t: int) { start <= t < end }
  }

  function Min(a: int, b: int): int { if a < b then a else b }

  function Max(a: int, b: int): int { if a > b then a else b }

  /** Midnight after `t`, in UTC. */
  function DayEnd(t: int): (e: int)
    ensures t < e <= t + DAY_MS && e % DAY_MS == 0
  {
    t / DAY_MS * DAY_MS + DAY_MS
  }

  /** Back to back, none empty, from `from` to `to`. */
  predicate Tiles(spans: seq<Span>, from: int, to: int) {
    if spans == [] then from == to
    else spans[0].start == from && from < spans[0].end && Tiles(spans[1..], spans[0].end, to)
  }

  /** How many of the spans hold the instant. */
  function Hits(spans: seq<Span>, t: int): nat {
    if spans == [] then 0 else (if spans[0].Holds(t) then 1 else 0) + Hits(spans[1..], t)
  }

  lemma {:induction false} TilesConcat(a: seq<Span>, b: seq<Span>, from: int, mid: int, to: int)
    requires Tiles(a, from, mid) && Tiles(b, mid, to)
    ensures Tiles(a + b, from, to)
  {
    if a == [] {
      assert a + b == b;
    } else {
      assert (a + b)[1..] == a[1..] + b;
      TilesConcat(a[1..], b, a[0].end, mid, to);
    }
  }

  lemma {:induction false} TilesGoForward(spans: seq<Span>, from: int, to: int)
    requires Tiles(spans, from, to)
    ensures from <= to && (spans != [] ==> from < to)
  {
    if spans != [] { TilesGoForward(spans[1..], spans[0].end, to); }
  }

  /** A tiling holds every instant of its span exactly once, and no other. */
  lemma {:induction false} TilesHitOnce(spans: seq<Span>, from: int, to: int, t: int)
    requires Tiles(spans, from, to)
    ensures Hits(spans, t) == if from <= t < to then 1 else 0
  {
    if spans != [] {
      TilesGoForward(spans[1..], spans[0].end, to);
      TilesHitOnce(spans[1..], spans[0].end, to, t);
    }
  }
}
