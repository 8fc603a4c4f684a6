/**
 * Configuration history through the backfill: replaying day by day, each day
 * compared with the last row logged before it, writes the change log that one
 * pass over the whole history would write.
 */
module BackfillConfig {
  import opened Wrappers
  import opened Database
  import opened Backfill
  import opened BackfillGuarantees

  /** Polls of one device, in time order, within `[start, end)`. */
  predicate Polled(polls: seq<LogRow>, device: int, start: int, end: int) {
    && (forall i :: 0 <= i < |polls| ==> polls[i].device == device && start <= polls[i].time < end)
    && (forall i, j :: 0 <= i < j < |polls| ==> polls[i].time <= polls[j].time)
  }

  /** The log has no row of the device in the span. */
  predicate Clear(log: seq<LogRow>, device: int, start: int, end: int) {
    forall i :: 0 <= i < |log| && log[i].device == device ==> log[i].time < start || log[i].time >= end
  }

  /** The log has no row of the metric in the span. */
  predicate ClearFor(log: seq<LogRow>, device: int, metric: string, start: int, end: int) {
    forall i :: 0 <= i < |log| && log[i].device == device && log[i].metric == metric ==>
      log[i].time < start || log[i].time >= end
  }

  lemma {:induction false} PriorOverClear(log: seq<LogRow>, device: int, metric: string, start: int, end: int)
    requires start <= end && ClearFor(log, device, metric, start, end)
    ensures Prior(log, device, metric, end) == Prior(log, device, metric, start)
    ensures var p := Prior(log, device, metric, start); p.Some? ==> p.value.time < start
  {
    if log != [] {
      var before := log[..|log| - 1];
      assert forall i :: 0 <= i < |before| ==> before[i] == log[i];
      PriorOverClear(before, device, metric, start, end);
    }
  }

  function ValueOf(row: Option<LogRow>): Option<real> { if row.Some? then Some(row.value.value) else None }

  lemma PriorSnoc(log: seq<LogRow>, row: LogRow, device: int, metric: string, before: int)
    ensures var earlier := Prior(log, device, metric, before);
            Prior(log + [row], device, metric, before)
            == if row.device == device && row.metric == metric && row.time < before
                && (earlier.None? || earlier.value.time <= row.time)
               then Some(row) else earlier
  {
    assert (log + [row])[..|log|] == log;
  }

  /**
   * After a chunk has been committed, the log's last value of every metric is the
   * last one polled, or what it was before when the chunk polled none.
   */
  lemma {:induction false} LogHoldsLastPoll(log: seq<LogRow>, polls: seq<LogRow>, device: int, metric: string,
                                            start: int, end: int, latest: int)
    requires Polled(polls, device, start, end) && ClearFor(log, device, metric, start, end)
    requires start <= latest && forall i :: 0 <= i < |polls| ==> polls[i].time <= latest
    requires start <= end
    ensures var after := Prior(log + Changes(log, polls, start), device, metric, end);
            ValueOf(after) == Known(log, polls, device, metric, start) && (after.Some? ==> after.value.time <= latest)
  {
    if polls == [] {
      assert log + Changes(log, polls, start) == log;
      PriorOverClear(log, device, metric, start, end);
    } else {
      var before, p := polls[..|polls| - 1], polls[|polls| - 1];
      assert forall i :: 0 <= i < |before| ==> before[i] == polls[i];
      LogHoldsLastPoll(log, before, device, metric, start, end, p.time);
      if IsChange(log, before, p, start) {
        Regroup(log, Changes(log, before, start), [p]);
        PriorSnoc(log + Changes(log, before, start), p, device, metric, end);
      } else {
        assert Changes(log, polls, start) == Changes(log, before, start);
      }
    }
  }

  lemma {:induction false} LagConcat(x: seq<LogRow>, y: seq<LogRow>, metric: string)
    ensures Lag(x + y, metric) == if Lag(y, metric).Some? then Lag(y, metric) else Lag(x, metric)
  {
    if y == [] {
      assert x + y == x;
    } else {
      assert (x + y)[..|x + y| - 1] == x + y[..|y| - 1];
      LagConcat(x, y[..|y| - 1], metric);
    }
  }

  /** Two chunks, the second compared with what the first has logged, are one chunk. */
  lemma {:induction false} TwoChunksAreOne(log: seq<LogRow>, x: seq<LogRow>, y: seq<LogRow>, device: int, start: int,
      mid: int, end: int)
    requires start <= mid && Polled(x, device, start, mid) && Polled(y, device, mid, end)
         && Clear(log, device, start, mid)
    ensures Changes(log, x + y, start) == Changes(log, x, start) + Changes(log + Changes(log, x, start), y, mid)
  {
    var logged := log + Changes(log, x, start);
    if y == [] {
      assert x + y == x;
    } else {
      var before, p := y[..|y| - 1], y[|y| - 1];
      assert forall i :: 0 <= i < |before| ==> before[i] == y[i];
      TwoChunksAreOne(log, x, before, device, start, mid, end);
      assert (x + y)[..|x + y| - 1] == x + before;
      LagConcat(x, before, p.metric);
      LogHoldsLastPoll(log, x, device, p.metric, start, mid, mid);
      assert Known(log, x + before, device, p.metric, start) == Known(logged, before, device, p.metric, mid);
    }
  }

  function AllPolls(us: seq<Unit>, m: Migration): seq<LogRow> {
    if us == [] then [] else ConfigPolls(us[0].rows, us[0], m) + AllPolls(us[1..], m)
  }

  /** The units read relations in time order, over spans that ascend without overlap. */
  predicate InTimeOrder(us: seq<Unit>) {
    && (forall i :: 0 <= i < |us| ==> us[i].span.start < us[i].span.end)
    && (forall i, j :: 0 <= i < j < |us| ==> us[i].span.end <= us[j].span.start)
    && (forall i :: 0 <= i < |us| ==> Sorted(us[i].rows))
  }

  predicate Sorted(rows: seq<Bucket>) { forall i, j :: 0 <= i < j < |rows| ==> rows[i].time <= rows[j].time }

  lemma {:induction false} ChunkIsPolled(rows: seq<Bucket>, u: Unit, m: Migration)
    requires Sorted(rows)
    ensures Polled(ConfigPolls(rows, u, m), m.device, u.span.start, u.span.end)
    ensures rows != [] ==> forall i ::
          0 <= i < |ConfigPolls(rows, u, m)| ==> ConfigPolls(rows, u, m)[i].time <= rows[|rows| - 1].time
  {
    if rows != [] {
      var before := rows[..|rows| - 1];
      assert forall i :: 0 <= i < |before| ==> before[i] == rows[i];
      ChunkIsPolled(before, u, m);
    }
  }

  lemma PolledConcat(x: seq<LogRow>, y: seq<LogRow>, device: int, start: int, mid: int, end: int)
    requires Polled(x, device, start, mid) && Polled(y, device, mid, end) && start <= mid <= end
    ensures Polled(x + y, device, start, end)
  {
  }

  lemma PolledWider(x: seq<LogRow>, device: int, start: int, from: int, end: int, past: int)
    requires Polled(x, device, start, end) && from <= start && end <= past
    ensures Polled(x, device, from, past)
  {
  }

  lemma {:induction false} AllArePolled(us: seq<Unit>, m: Migration, start: int, end: int)
    requires InTimeOrder(us) && us != [] && start <= us[0].span.start && us[|us| - 1].span.end <= end
    ensures Polled(AllPolls(us, m), m.device, start, end)
  {
    hide ConfigPolls, Polled;
    var first, later := ConfigPolls(us[0].rows, us[0], m), us[1..];
    ChunkIsPolled(us[0].rows, us[0], m);
    if later == [] {
      PolledWider(first, m.device, us[0].span.start, start, us[0].span.end, end);
      assert AllPolls(us, m) == first;
    } else {
      assert forall i :: 0 <= i < |later| ==> later[i] == us[i + 1];
      AllArePolled(later, m, us[0].span.end, end);
      PolledWider(first, m.device, us[0].span.start, start, us[0].span.end, us[0].span.end);
      PolledConcat(first, AllPolls(later, m), m.device, start, us[0].span.end, end);
    }
  }

  lemma {:induction false} ChangesArePolls(log: seq<LogRow>, polls: seq<LogRow>, start: int)
    ensures forall row :: row in Changes(log, polls, start) ==> row in polls
  {
    if polls != [] { ChangesArePolls(log, polls[..|polls| - 1], start); }
  }

  lemma ClearAfter(log: seq<LogRow>, polls: seq<LogRow>, device: int, start: int, mid: int, end: int)
    requires Clear(log, device, start, end) && Polled(polls, device, start, mid) && start <= mid <= end
    ensures Clear(log + Changes(log, polls, start), device, mid, end)
  {
    var more := Changes(log, polls, start);
    ChangesArePolls(log, polls, start);
    forall i | 0 <= i < |more| ensures more[i].time < mid { assert more[i] in polls; }
  }

  /**
   * However the history is cut into chunks, committing them in order logs exactly
   * the changes of the whole history taken at once.
   */
  lemma {:induction false} ChunkingIsInvisible(log: seq<LogRow>, us: seq<Unit>, m: Migration)
    requires InTimeOrder(us) && us != []
    requires Clear(log, m.device, us[0].span.start, us[|us| - 1].span.end)
    ensures LogAfter(log, us, m) == log + Changes(log, AllPolls(us, m), us[0].span.start)
    decreases |us|
  {
    hide ConfigPolls, Changes, Clear, Polled;
    var polls, later := ConfigPolls(us[0].rows, us[0], m), us[1..];
    var start, end := us[0].span.start, us[|us| - 1].span.end;
    var logged := log + Changes(log, polls, start);
    if later == [] {
      assert AllPolls(us, m) == polls;
      assert LogAfter(log, us, m) == logged;
    } else {
      var mid := later[0].span.start;
      assert forall i :: 0 <= i < |later| ==> later[i] == us[i + 1];
      ChunkIsPolled(us[0].rows, us[0], m);
      PolledWider(polls, m.device, start, start, us[0].span.end, mid);
      ClearAfter(log, polls, m.device, start, mid, end);
      ChunkingIsInvisible(logged, later, m);
      AllArePolled(later, m, mid, end);
      ClearIn(log, m.device, start, mid, end);
      TwoChunksAreOne(log, polls, AllPolls(later, m), m.device, start, mid, end);
      Regroup(log, Changes(log, polls, start), Changes(logged, AllPolls(later, m), mid));
    }
  }

  lemma ClearIn(log: seq<LogRow>, device: int, start: int, mid: int, end: int)
    requires Clear(log, device, start, end) && mid <= end
    ensures Clear(log, device, start, mid)
  {
  }

  /** The bucket replay of one source id is such a run of units. */
  lemma IdUnitsInTimeOrder(m: Migration, id: string, primary: string)
    requires forall tier :: tier in m.tiers ==> Sorted(m.tiers[tier])
    ensures InTimeOrder(BucketUnits(m, id, primary, IdChunks(m, id)))
  {
    IdChunksAscend(m, id);
    hide IdChunks;
  }

  // ----- the whole log of a run --------------------------------------------------------

  /** The value of the metric at an instant, as the polls tell it. */
  function PollAt(polls: seq<LogRow>, metric: string, t: int): Option<real> {
    if polls == [] then None
    else
      var p := polls[|polls| - 1];
      if p.metric == metric && p.time <= t then Some(p.value) else PollAt(polls[..|polls| - 1], metric, t)
  }

  /** The value of the metric at an instant, as the log tells it. */
  function LoggedAt(log: seq<LogRow>, device: int, metric: string, t: int): Option<real> {
    ValueOf(Prior(log, device, metric, t + 1))
  }

  lemma {:induction false} LagIsLastPoll(polls: seq<LogRow>, metric: string, t: int)
    requires forall i :: 0 <= i < |polls| ==> polls[i].time <= t
    ensures Lag(polls, metric) == PollAt(polls, metric, t)
  {
    if polls != [] { LagIsLastPoll(polls[..|polls| - 1], metric, t); }
  }

  /** When every poll lies at or before the instant, the last one counts. */
  lemma StepAfterAll(log: seq<LogRow>, polls: seq<LogRow>, device: int, metric: string, start: int, end: int, t: int)
    requires Polled(polls, device, start, end) && ClearFor(log, device, metric, start, end) && start <= end && t < end
    requires polls != [] && polls[|polls| - 1].time <= t
    ensures LoggedAt(log + Changes(log, polls, start), device, metric, t)
         == if PollAt(polls, metric, t).Some? then PollAt(polls, metric, t) else LoggedAt(log, device, metric, t)
  {
    hide Changes, Prior, Lag, PollAt;
    LagIsLastPoll(polls, metric, t);
    LogHoldsLastPoll(log, polls, device, metric, start, t + 1, polls[|polls| - 1].time);
    PriorOverClear(log, device, metric, start, t + 1);
  }

  /** A poll after the instant changes nothing at it, logged or not. */
  lemma LaterPollIsIgnored(log: seq<LogRow>, polls: seq<LogRow>, device: int, metric: string, start: int, t: int)
    requires polls != [] && polls[|polls| - 1].time > t
    ensures LoggedAt(log + Changes(log, polls, start), device, metric, t)
         == LoggedAt(log + Changes(log, polls[..|polls| - 1], start), device, metric, t)
    ensures PollAt(polls, metric, t) == PollAt(polls[..|polls| - 1], metric, t)
  {
    hide Prior, IsChange;
    var before, p := polls[..|polls| - 1], polls[|polls| - 1];
    if IsChange(log, before, p, start) {
      Regroup(log, Changes(log, before, start), [p]);
      PriorSnoc(log + Changes(log, before, start), p, device, metric, t + 1);
    } else {
      assert Changes(log, polls, start) == Changes(log, before, start);
    }
  }

  /** Logging changes only keeps the step function of the polls. */
  lemma {:induction false} ChangesKeepSteps(log: seq<LogRow>, polls: seq<LogRow>, device: int, metric: string,
                                            start: int, end: int, t: int)
    requires Polled(polls, device, start, end) && ClearFor(log, device, metric, start, end) && start <= end && t < end
    ensures LoggedAt(log + Changes(log, polls, start), device, metric, t)
         == if PollAt(polls, metric, t).Some? then PollAt(polls, metric, t) else LoggedAt(log, device, metric, t)
  {
    if polls == [] {
      assert log + Changes(log, polls, start) == log;
    } else {
      hide Changes, LoggedAt, PollAt, ClearFor;
      var before := polls[..|polls| - 1];
      assert forall i :: 0 <= i < |before| ==> before[i] == polls[i];
      if polls[|polls| - 1].time <= t {
        StepAfterAll(log, polls, device, metric, start, end, t);
      } else {
        ChangesKeepSteps(log, before, device, metric, start, end, t);
        LaterPollIsIgnored(log, polls, device, metric, start, t);
      }
    }
  }

  lemma {:induction false} PriorIsThere(log: seq<LogRow>, device: int, metric: string, before: int)
    ensures var p := Prior(log, device, metric, before);
            p.Some? ==> p.value in log && p.value.device == device && p.value.metric == metric && p.value.time < before
    ensures Prior(log, device, metric, before).None?
       ==> forall i :: 0 <= i < |log| && log[i].device == device && log[i].metric == metric ==> log[i].time >= before
  {
    if log != [] {
      PriorIsThere(log[..|log| - 1], device, metric, before);
      assert forall i :: 0 <= i < |log| - 1 ==> log[..|log| - 1][i] == log[i];
    }
  }

  /** Rows that are older than the latest one known change nothing, although they are logged after it. */
  lemma {:induction false} OlderRowsYield(log: seq<LogRow>, rows: seq<LogRow>, device: int, metric: string, before: int)
    requires Prior(log, device, metric, before).Some?
    requires forall i :: 0 <= i < |rows| ==> rows[i].time < Prior(log, device, metric, before).value.time
    ensures Prior(log + rows, device, metric, before) == Prior(log, device, metric, before)
  {
    if rows == [] {
      assert log + rows == log;
    } else {
      var front, row := rows[..|rows| - 1], rows[|rows| - 1];
      assert forall i :: 0 <= i < |front| ==> front[i] == rows[i];
      OlderRowsYield(log, front, device, metric, before);
      Regroup(log, front, [row]);
      assert log + rows == (log + front) + [row];
      PriorSnoc(log + front, row, device, metric, before);
    }
  }
}
