/**
 * Configuration history over chunks that are committed out of their time order, as a
 * backfill commits them: the carried window before the older buckets, and one source
 * id after the other. Each chunk logs what differs from the last row logged before it,
 * so a row that is logged later may have changed what the chunk should have seen.
 */
module BackfillOrder {
  import opened Wrappers
  import opened Database
  import opened Spans
  import opened Replay
  import opened Backfill
  import opened BackfillSafety
  import opened BackfillGuarantees
  import opened BackfillConfig

  // ----- chunks and what they poll ---------------------------------------------------------

  /** The log once the first `n` chunks have been committed. */
  function Logged(log: seq<LogRow>, spans: seq<Span>, polls: seq<seq<LogRow>>, n: nat): seq<LogRow>
    requires n <= |spans| == |polls|
  {
    if n == 0 then log
    else
      var before := Logged(log, spans, polls, n - 1);
      before + Changes(before, polls[n - 1], spans[n - 1].start)
  }

  /** Every poll of the first `n` chunks. */
  function Every(polls: seq<seq<LogRow>>, n: nat): seq<LogRow>
    requires n <= |polls|
  {
    if n == 0 then [] else Every(polls, n - 1) + polls[n - 1]
  }

  /** Polls that the chunks may hold. */
  predicate Contents(spans: seq<Span>, polls: seq<seq<LogRow>>, device: int) {
    && |polls| == |spans|
    && forall i :: 0 <= i < |spans| ==> Polled(polls[i], device, spans[i].start, spans[i].end)
  }

  /** What is logged of the device already was logged at or after the horizon: the target server has been running. */
  predicate From(log: seq<LogRow>, device: int, horizon: int) {
    forall i :: 0 <= i < |log| && log[i].device == device ==> log[i].time >= horizon
  }

  /** The chunk has an instant. */
  predicate Open(s: Span) { s.start < s.end }

  predicate EndBy(spans: seq<Span>, horizon: int) {
    forall i :: 0 <= i < |spans| && Open(spans[i]) ==> spans[i].end <= horizon
  }

  /** At every instant the log says what it would say if it held every poll. */
  ghost predicate Right(log: seq<LogRow>, spans: seq<Span>, polls: seq<seq<LogRow>>, device: int)
    requires |spans| == |polls|
  {
    forall metric, t ::
      LoggedAt(Logged(log, spans, polls, |spans|), device, metric, t)
      == LoggedAt(log + Every(polls, |polls|), device, metric, t)
  }

  /** Whatever the chunks hold. */
  ghost predicate AlwaysRight(log: seq<LogRow>, spans: seq<Span>, device: int) {
    forall polls :: Contents(spans, polls, device) ==> Right(log, spans, polls, device)
  }

  predicate Apart(s: Span, t: Span) { s.end <= t.start || t.end <= s.start }

  /** `late` lies between the two in time. */
  predicate Hemmed(first: Span, second: Span, late: Span) {
    first.end <= late.start < late.end <= second.start
  }

  /**
   * An order of commits that loses nothing: the chunks do not overlap, and none is
   * committed after two others that it lies between, the earlier of which came first.
   */
  predicate Committable(spans: seq<Span>) {
    && (forall i, j :: 0 <= i < j < |spans| && Open(spans[i]) && Open(spans[j]) ==> Apart(spans[i], spans[j]))
    && (forall i, j, k :: 0 <= i < j < k < |spans| && Open(spans[i]) && Open(spans[j]) ==>
          !Hemmed(spans[i], spans[j], spans[k]))
  }

  // ----- where the rows of the log come from --------------------------------------------------

  lemma {:induction false} LogWithin(log: seq<LogRow>, spans: seq<Span>, polls: seq<seq<LogRow>>, n: nat)
    requires n <= |spans| == |polls|
    ensures forall r :: r in Logged(log, spans, polls, n) ==> r in log || r in Every(polls, n)
    ensures forall r :: r in log ==> r in Logged(log, spans, polls, n)
  {
    if n > 0 {
      LogWithin(log, spans, polls, n - 1);
      ChangesArePolls(Logged(log, spans, polls, n - 1), polls[n - 1], spans[n - 1].start);
    }
  }

  lemma {:induction false} Home(polls: seq<seq<LogRow>>, n: nat, r: LogRow) returns (a: nat)
    requires n <= |polls| && r in Every(polls, n)
    ensures a < n && r in polls[a]
  {
    if r in polls[n - 1] {
      a := n - 1;
    } else {
      a := Home(polls, n - 1, r);
    }
  }

  /** Rows of the device lie in the chunks committed so far, or past the horizon. */
  lemma RowsAreHome(log: seq<LogRow>, spans: seq<Span>, polls: seq<seq<LogRow>>, n: nat, device: int, horizon: int,
                    r: LogRow) returns (a: nat)
    requires n <= |spans| && Contents(spans, polls, device) && From(log, device, horizon)
    requires r in log + Every(polls, n) && r.device == device
    ensures r in log || (a < n && r in polls[a] && spans[a].Holds(r.time))
    ensures r in log ==> r.time >= horizon
  {
    if r in log {
      a := 0;
    } else {
      a := Home(polls, n, r);
    }
  }

  lemma {:induction false} FirstLogged(log: seq<LogRow>, polls: seq<LogRow>, p: LogRow, start: int) returns (r: LogRow)
    requires p in polls && forall i, j :: 0 <= i < j < |polls| ==> polls[i].time <= polls[j].time
    requires forall i :: 0 <= i < |polls| ==> polls[i].device == p.device
    requires Prior(log, p.device, p.metric, start).None?
    ensures r in Changes(log, polls, start) && r.device == p.device && r.metric == p.metric && r.time <= p.time
  {
    var before, q := polls[..|polls| - 1], polls[|polls| - 1];
    assert forall i :: 0 <= i < |before| ==> before[i] == polls[i];
    if p in before {
      r := FirstLogged(log, before, p, start);
    } else if Lag(before, p.metric).None? {
      assert p == q;
      r := p;
    } else {
      assert p == q;
      var earlier := LagIsThere(before, p.metric);
      r := FirstLogged(log, before, earlier, start);
    }
  }

  lemma {:induction false} LagIsThere(polls: seq<LogRow>, metric: string) returns (p: LogRow)
    requires Lag(polls, metric).Some?
    ensures p in polls && p.metric == metric
  {
    if polls[|polls| - 1].metric == metric {
      p := polls[|polls| - 1];
    } else {
      p := LagIsThere(polls[..|polls| - 1], metric);
    }
  }

  /**
   * A poll of chunk `i` leaves a row of its metric behind: one within the chunk that is
   * not after the poll, or else the row that the chunk was compared with, which an
   * earlier commit had put before it.
   */
  lemma {:induction false} Anchor(log: seq<LogRow>, spans: seq<Span>, polls: seq<seq<LogRow>>, n: nat, device: int,
                                  horizon: int, i: nat, p: LogRow) returns (r: LogRow, a: nat)
    requires i < n <= |spans| && Contents(spans, polls, device) && From(log, device, horizon) && EndBy(spans, horizon)
    requires p in polls[i]
    ensures r in Logged(log, spans, polls, n) && r.device == device && r.metric == p.metric
    ensures spans[i].start <= r.time <= p.time
         || (a < i && spans[a].Holds(r.time) && r.time < spans[i].start)
  {
    a := 0;
    if i < n - 1 {
      r, a := Anchor(log, spans, polls, n - 1, device, horizon, i, p);
    } else {
      hide Changes, Prior, Every;
      var before := Logged(log, spans, polls, i);
      PriorIsThere(before, device, p.metric, spans[i].start);
      if Prior(before, device, p.metric, spans[i].start).Some? {
        r := Prior(before, device, p.metric, spans[i].start).value;
        LogWithin(log, spans, polls, i);
        a := RowsAreHome(log, spans, polls, i, device, horizon, r);
      } else {
        r := FirstLogged(before, polls[i], p, spans[i].start);
        ChangesArePolls(before, polls[i], spans[i].start);
      }
    }
  }

  // ----- a log that holds every poll -------------------------------------------------------------

  lemma {:induction false} PriorIsLatest(log: seq<LogRow>, device: int, metric: string, before: int, r: LogRow)
    requires r in log && r.device == device && r.metric == metric && r.time < before
    ensures var p := Prior(log, device, metric, before); p.Some? && p.value.time >= r.time
  {
    if r in log[..|log| - 1] { PriorIsLatest(log[..|log| - 1], device, metric, before, r); }
  }

  /** Logging every poll gives the step function of the polls. */
  lemma {:induction false} PollsKeepSteps(log: seq<LogRow>, polls: seq<LogRow>, device: int, metric: string,
                                          start: int, end: int, t: int)
    requires Polled(polls, device, start, end) && ClearFor(log, device, metric, start, end) && start <= end && t < end
    ensures LoggedAt(log + polls, device, metric, t)
         == if PollAt(polls, metric, t).Some? then PollAt(polls, metric, t) else LoggedAt(log, device, metric, t)
    ensures var p := Prior(log + polls, device, metric, t + 1);
            p.Some? ==> p.value.time < start || exists i :: 0 <= i < |polls| && p.value == polls[i]
  {
    if polls == [] {
      assert log + polls == log;
      PriorOverClearTo(log, device, metric, start, end, t);
    } else {
      var before, p := polls[..|polls| - 1], polls[|polls| - 1];
      assert forall i :: 0 <= i < |before| ==> before[i] == polls[i];
      PollsKeepSteps(log, before, device, metric, start, end, t);
      Regroup(log, before, [p]);
      assert before + [p] == polls;
      PriorSnoc(log + before, p, device, metric, t + 1);
    }
  }

  lemma PriorOverClearTo(log: seq<LogRow>, device: int, metric: string, start: int, end: int, t: int)
    requires ClearFor(log, device, metric, start, end) && t < end
    ensures var p := Prior(log, device, metric, t + 1); p.Some? ==> p.value.time < start
  {
    PriorIsThere(log, device, metric, t + 1);
  }

  // ----- one more commit -------------------------------------------------------------------------

  /** The chunks before the `n`th have no row in it. */
  lemma ClearBefore(log: seq<LogRow>, spans: seq<Span>, polls: seq<seq<LogRow>>, n: nat, device: int, horizon: int,
                    metric: string)
    requires n < |spans| && Contents(spans, polls, device) && From(log, device, horizon) && EndBy(spans, horizon)
    requires Committable(spans) && Open(spans[n])
    ensures ClearFor(log + Every(polls, n), device, metric, spans[n].start, spans[n].end)
    ensures ClearFor(Logged(log, spans, polls, n), device, metric, spans[n].start, spans[n].end)
  {
    hide Every, Logged;
    var full, held := log + Every(polls, n), Logged(log, spans, polls, n);
    forall r | r in full && r.device == device ensures r.time < spans[n].start || r.time >= spans[n].end {
      var a := RowsAreHome(log, spans, polls, n, device, horizon, r);
    }
    LogWithin(log, spans, polls, n);
    forall i | 0 <= i < |held| ensures held[i] in full { assert held[i] in held; }
  }

  /** Within the chunk and before it, both logs tell the chunk's own polls. */
  lemma RightWithin(held: seq<LogRow>, full: seq<LogRow>, polls: seq<LogRow>, device: int, metric: string, s: Span,
                    t: int)
    requires Polled(polls, device, s.start, s.end) && s.start <= s.end && t < s.end
    requires ClearFor(held, device, metric, s.start, s.end) && ClearFor(full, device, metric, s.start, s.end)
    requires LoggedAt(held, device, metric, t) == LoggedAt(full, device, metric, t)
    ensures LoggedAt(held + Changes(held, polls, s.start), device, metric, t)
         == LoggedAt(full + polls, device, metric, t)
  {
    hide LoggedAt, Changes, PollAt, ClearFor, Polled;
    ChangesKeepSteps(held, polls, device, metric, s.start, s.end, t);
    PollsKeepSteps(full, polls, device, metric, s.start, s.end, t);
  }

  predicate Reaches(log: seq<LogRow>, device: int, metric: string, from: int, t: int) {
    var p := Prior(log, device, metric, t + 1);
    p.Some? && p.value.time >= from
  }

  /** After the chunk, where a later row is known already, the chunk changes nothing. */
  lemma RightPast(held: seq<LogRow>, full: seq<LogRow>, polls: seq<LogRow>, device: int, metric: string, s: Span,
                  t: int)
    requires Polled(polls, device, s.start, s.end)
    requires Reaches(held, device, metric, s.end, t) && Reaches(full, device, metric, s.end, t)
    requires LoggedAt(held, device, metric, t) == LoggedAt(full, device, metric, t)
    ensures LoggedAt(held + Changes(held, polls, s.start), device, metric, t)
         == LoggedAt(full + polls, device, metric, t)
  {
    hide Prior, Changes;
    var more := Changes(held, polls, s.start);
    ChangesArePolls(held, polls, s.start);
    forall i | 0 <= i < |more| ensures more[i].time < s.end { assert more[i] in polls; }
    OlderRowsYield(held, more, device, metric, t + 1);
    OlderRowsYield(full, polls, device, metric, t + 1);
  }

  lemma NotReached(log: seq<LogRow>, device: int, metric: string, from: int, t: int)
    requires !Reaches(log, device, metric, from, t)
    ensures ClearFor(log, device, metric, from, t + 1)
  {
    forall i | 0 <= i < |log| && log[i].device == device && log[i].metric == metric
      ensures log[i].time < from || log[i].time >= t + 1
    {
      if log[i].time < t + 1 { PriorIsLatest(log, device, metric, t + 1, log[i]); }
    }
  }

  /** After the chunk, where no later row is known, both logs stay at what they tell at its end. */
  lemma RightAfter(held: seq<LogRow>, full: seq<LogRow>, polls: seq<LogRow>, device: int, metric: string, s: Span,
                   t: int)
    requires Polled(polls, device, s.start, s.end) && s.start < s.end <= t + 1
    requires !Reaches(held, device, metric, s.end, t) && !Reaches(full, device, metric, s.end, t)
    requires ClearFor(held, device, metric, s.start, s.end) && ClearFor(full, device, metric, s.start, s.end)
    requires LoggedAt(held, device, metric, s.end - 1) == LoggedAt(full, device, metric, s.end - 1)
    ensures LoggedAt(held + Changes(held, polls, s.start), device, metric, t)
         == LoggedAt(full + polls, device, metric, t)
  {
    hide Prior, Changes;
    var more := Changes(held, polls, s.start);
    ChangesArePolls(held, polls, s.start);
    forall i | 0 <= i < |more| ensures more[i].time < s.end { assert more[i] in polls; }
    NotReached(held, device, metric, s.end, t);
    NotReached(full, device, metric, s.end, t);
    PriorOverClear(held + more, device, metric, s.end, t + 1);
    PriorOverClear(full + polls, device, metric, s.end, t + 1);
    RightWithin(held, full, polls, device, metric, s, s.end - 1);
  }

  /** What is known after the chunk is known to the log as well, by an older row perhaps. */
  lemma ReachesToo(log: seq<LogRow>, spans: seq<Span>, polls: seq<seq<LogRow>>, n: nat, device: int, horizon: int,
                   metric: string, t: int)
    requires n < |spans| && Contents(spans, polls, device) && From(log, device, horizon) && EndBy(spans, horizon)
    requires Committable(spans) && Open(spans[n])
    ensures Reaches(Logged(log, spans, polls, n), device, metric, spans[n].end, t)
       <==> Reaches(log + Every(polls, n), device, metric, spans[n].end, t)
  {
    hide Every, Logged, Prior;
    var held, full, end := Logged(log, spans, polls, n), log + Every(polls, n), spans[n].end;
    LogWithin(log, spans, polls, n);
    if Reaches(held, device, metric, end, t) {
      PriorIsThere(held, device, metric, t + 1);
      PriorIsLatest(full, device, metric, t + 1, Prior(held, device, metric, t + 1).value);
    }
    if Reaches(full, device, metric, end, t) {
      PriorIsThere(full, device, metric, t + 1);
      var b := Prior(full, device, metric, t + 1).value;
      var i := RowsAreHome(log, spans, polls, n, device, horizon, b);
      if b in log {
        PriorIsLatest(held, device, metric, t + 1, b);
      } else {
        var r, a := Anchor(log, spans, polls, n, device, horizon, i, b);
        assert Apart(spans[i], spans[n]);
        if r.time < spans[i].start { assert Apart(spans[a], spans[n]) && !Hemmed(spans[a], spans[i], spans[n]); }
        PriorIsLatest(held, device, metric, t + 1, r);
      }
    }
  }

  /** One commit more keeps the log right, if it was right after the chunk's last instant and at `t`. */
  lemma CommitIsRight(held: seq<LogRow>, full: seq<LogRow>, polls: seq<LogRow>, device: int, metric: string, s: Span,
                      t: int)
    requires Polled(polls, device, s.start, s.end) && s.start < s.end
    requires ClearFor(held, device, metric, s.start, s.end) && ClearFor(full, device, metric, s.start, s.end)
    requires Reaches(held, device, metric, s.end, t) <==> Reaches(full, device, metric, s.end, t)
    requires LoggedAt(held, device, metric, t) == LoggedAt(full, device, metric, t)
    requires LoggedAt(held, device, metric, s.end - 1) == LoggedAt(full, device, metric, s.end - 1)
    ensures LoggedAt(held + Changes(held, polls, s.start), device, metric, t)
         == LoggedAt(full + polls, device, metric, t)
  {
    hide *;
    if t < s.end {
      RightWithin(held, full, polls, device, metric, s, t);
    } else if Reaches(held, device, metric, s.end, t) {
      RightPast(held, full, polls, device, metric, s, t);
    } else {
      RightAfter(held, full, polls, device, metric, s, t);
    }
  }

  lemma NothingPolled(held: seq<LogRow>, full: seq<LogRow>, start: int)
    ensures held + Changes(held, [], start) == held && full + [] == full
  {
  }

  /** Chunks committed in such an order: the log is right at every instant, whatever they poll. */
  lemma {:induction false} OrderIsRight(log: seq<LogRow>, spans: seq<Span>, polls: seq<seq<LogRow>>, n: nat,
                                        device: int, horizon: int, metric: string, t: int)
    requires n <= |spans| && Contents(spans, polls, device) && From(log, device, horizon) && EndBy(spans, horizon)
    requires Committable(spans)
    ensures LoggedAt(Logged(log, spans, polls, n), device, metric, t)
         == LoggedAt(log + Every(polls, n), device, metric, t)
  {
    if n == 0 {
      assert log + [] == log;
    } else {
      hide Changes, LoggedAt, ClearFor, Reaches, Committable, From, EndBy, Polled;
      var held, full, p, s := Logged(log, spans, polls, n - 1), log + Every(polls, n - 1), polls[n - 1], spans[n - 1];
      OrderIsRight(log, spans, polls, n - 1, device, horizon, metric, t);
      Regroup(log, Every(polls, n - 1), p);
      if p == [] {
        NothingPolled(held, full, s.start);
      } else {
        PolledIsOpen(p, device, s);
        ClearBefore(log, spans, polls, n - 1, device, horizon, metric);
        ReachesToo(log, spans, polls, n - 1, device, horizon, metric, t);
        OrderIsRight(log, spans, polls, n - 1, device, horizon, metric, s.end - 1);
        CommitIsRight(held, full, p, device, metric, s, t);
      }
    }
  }

  lemma PolledIsOpen(polls: seq<LogRow>, device: int, s: Span)
    requires polls != [] && Polled(polls, device, s.start, s.end)
    ensures Open(s)
  {
    assert s.start <= polls[0].time < s.end;
  }

  // ----- any other order loses a poll ----------------------------------------------------------------

  lemma {:induction false} Idle(log: seq<LogRow>, spans: seq<Span>, polls: seq<seq<LogRow>>, from: nat, n: nat)
    requires from <= n <= |spans| == |polls| && forall h :: from <= h < n ==> polls[h] == []
    ensures Logged(log, spans, polls, n) == Logged(log, spans, polls, from)
    ensures Every(polls, n) == Every(polls, from)
  {
    if from < n { Idle(log, spans, polls, from, n - 1); }
  }

  lemma Step(log: seq<LogRow>, spans: seq<Span>, polls: seq<seq<LogRow>>, from: nat, n: nat)
    requires from <= n < |spans| == |polls| && forall h :: from <= h < n ==> polls[h] == []
    ensures var before := Logged(log, spans, polls, from);
            Logged(log, spans, polls, n + 1) == before + Changes(before, polls[n], spans[n].start)
    ensures Every(polls, n + 1) == Every(polls, from) + polls[n]
  {
    Idle(log, spans, polls, from, n);
  }

  lemma FirstStep(log: seq<LogRow>, spans: seq<Span>, polls: seq<seq<LogRow>>, n: nat)
    requires n < |spans| == |polls| && forall h :: 0 <= h < n ==> polls[h] == []
    ensures Logged(log, spans, polls, n + 1) == log + Changes(log, polls[n], spans[n].start)
    ensures Every(polls, n + 1) == polls[n]
  {
    Idle(log, spans, polls, 0, n);
    assert [] + polls[n] == polls[n];
  }

  lemma TwoCommits(log: seq<LogRow>, spans: seq<Span>, polls: seq<seq<LogRow>>, i: nat, j: nat)
    requires i < j < |spans| == |polls|
    requires forall h :: 0 <= h < |polls| && h != i && h != j ==> polls[h] == []
    ensures var first := log + Changes(log, polls[i], spans[i].start);
            Logged(log, spans, polls, |spans|) == first + Changes(first, polls[j], spans[j].start)
    ensures Every(polls, |polls|) == polls[i] + polls[j]
  {
    hide *;
    FirstStep(log, spans, polls, i);
    Step(log, spans, polls, i + 1, j);
    Idle(log, spans, polls, j + 1, |spans|);
  }

  lemma ThreeCommits(log: seq<LogRow>, spans: seq<Span>, polls: seq<seq<LogRow>>, i: nat, j: nat, k: nat)
    requires i < j < k < |spans| == |polls|
    requires forall h :: 0 <= h < |polls| && h != i && h != j && h != k ==> polls[h] == []
    ensures var first := log + Changes(log, polls[i], spans[i].start);
            var second := first + Changes(first, polls[j], spans[j].start);
            Logged(log, spans, polls, |spans|) == second + Changes(second, polls[k], spans[k].start)
    ensures Every(polls, |polls|) == polls[i] + polls[j] + polls[k]
  {
    hide *;
    FirstStep(log, spans, polls, i);
    Step(log, spans, polls, i + 1, j);
    Step(log, spans, polls, j + 1, k);
    Idle(log, spans, polls, k + 1, |spans|);
  }

  /** Contents of the chunks that poll only there. */
  lemma Fill(spans: seq<Span>, device: int, i: nat, x: seq<LogRow>, j: nat, y: seq<LogRow>, k: nat, z: seq<LogRow>)
    returns (polls: seq<seq<LogRow>>)
    requires i < j < |spans| && (k == j || j < k < |spans|)
    requires Polled(x, device, spans[i].start, spans[i].end) && Polled(y, device, spans[j].start, spans[j].end)
    requires k == j || Polled(z, device, spans[k].start, spans[k].end)
    ensures |polls| == |spans| && Contents(spans, polls, device) && polls[i] == x && polls[j] == y
    ensures k != j ==> polls[k] == z
    ensures forall h :: 0 <= h < |polls| && h != i && h != j && h != k ==> polls[h] == []
  {
    forall s: Span ensures Polled([], device, s.start, s.end) {}
    hide Polled;
    polls := seq(|spans|, h => if h == i then x else if h == j then y else if h == k then z else []);
  }

  lemma OneIsPolled(p: LogRow, start: int, end: int)
    requires start <= p.time < end
    ensures Polled([p], p.device, start, end)
  {
  }

  lemma TwoArePolled(p: LogRow, q: LogRow, start: int, end: int)
    requires start <= p.time <= q.time < end && p.device == q.device
    ensures Polled([p, q], p.device, start, end)
  {
  }

  lemma OnePoll(log: seq<LogRow>, p: LogRow, start: int)
    ensures Changes(log, [p], start)
         == if ValueOf(Prior(log, p.device, p.metric, start)) == Some(p.value) then [] else [p]
  {
    assert [p][..0] == [] && Changes(log, [], start) == [] && Lag([], p.metric) == None;
  }

  lemma TwoPolls(log: seq<LogRow>, p: LogRow, q: LogRow, start: int)
    requires p.device == q.device && p.metric == q.metric
    ensures Changes(log, [p, q], start) == Changes(log, [p], start) + if p.value == q.value then [] else [q]
  {
    assert [p, q][..1] == [p] && [p][..0] == [];
  }

  lemma NothingBefore(log: seq<LogRow>, device: int, metric: string, horizon: int, before: int)
    requires From(log, device, horizon) && before <= horizon
    ensures Prior(log, device, metric, before) == None
  {
    PriorIsThere(log, device, metric, before);
  }

  function Poll(t: int, value: real, device: int): LogRow { LogRow(t, value, device, "x") }

  predicate Early(p: LogRow, device: int, metric: string, horizon: int) {
    p.device == device && p.metric == metric && p.time < horizon
  }

  /** The third poll lies between the others: what the second repeated is lost. */
  lemma BetweenIsLost(log: seq<LogRow>, device: int, metric: string, horizon: int, a: LogRow, b: LogRow, c: LogRow)
    requires From(log, device, horizon)
    requires Early(a, device, metric, horizon) && Early(b, device, metric, horizon) && Early(c, device, metric, horizon)
    requires a.time < c.time < b.time && a.value == b.value != c.value
    ensures var first := log + Changes(log, [a], a.time);
            var second := first + Changes(first, [b], b.time);
            LoggedAt(second + Changes(second, [c], c.time), device, metric, b.time) == Some(c.value)
    ensures LoggedAt(log + [a] + [b] + [c], device, metric, b.time) == Some(b.value)
  {
    hide Changes, Prior, From;
    NothingBefore(log, device, metric, horizon, a.time);
    OnePoll(log, a, a.time);
    var first := log + [a];
    NothingBefore(log, device, metric, horizon, b.time);
    PriorSnoc(log, a, device, metric, b.time);
    OnePoll(first, b, b.time);
    assert first + [] == first;
    NothingBefore(log, device, metric, horizon, c.time);
    PriorSnoc(log, a, device, metric, c.time);
    OnePoll(first, c, c.time);
    NothingBefore(log, device, metric, horizon, b.time + 1);
    PriorSnoc(log, a, device, metric, b.time + 1);
    PriorSnoc(first, c, device, metric, b.time + 1);
    PriorSnoc(first, b, device, metric, b.time + 1);
    PriorSnoc(first + [b], c, device, metric, b.time + 1);
  }

  /** The second chunk starts between two polls of the first and repeats the earlier one. */
  lemma RepeatedIsLost(log: seq<LogRow>, device: int, metric: string, horizon: int, a: LogRow, b: LogRow, c: LogRow)
    requires From(log, device, horizon)
    requires Early(a, device, metric, horizon) && Early(b, device, metric, horizon) && Early(c, device, metric, horizon)
    requires a.time < b.time < c.time && a.value == c.value != b.value
    ensures var first := log + Changes(log, [a, b], a.time);
            LoggedAt(first + Changes(first, [c], b.time), device, metric, c.time) == Some(b.value)
    ensures LoggedAt(log + [a] + [b] + [c], device, metric, c.time) == Some(c.value)
  {
    hide Changes, Prior, From;
    NothingBefore(log, device, metric, horizon, a.time);
    OnePoll(log, a, a.time);
    TwoPolls(log, a, b, a.time);
    Regroup(log, [a], [b]);
    var first := log + [a] + [b];
    NothingBefore(log, device, metric, horizon, b.time);
    PriorSnoc(log, a, device, metric, b.time);
    PriorSnoc(log + [a], b, device, metric, b.time);
    OnePoll(first, c, b.time);
    assert first + [] == first;
    NothingBefore(log, device, metric, horizon, c.time + 1);
    PriorSnoc(log, a, device, metric, c.time + 1);
    PriorSnoc(log + [a], b, device, metric, c.time + 1);
    PriorSnoc(first, c, device, metric, c.time + 1);
  }

  /** The second chunk repeats itself over an instant that the first has logged otherwise. */
  lemma LagIsLost(log: seq<LogRow>, device: int, metric: string, horizon: int, a: LogRow, b: LogRow, c: LogRow,
                  start: int)
    requires From(log, device, horizon)
    requires Early(a, device, metric, horizon) && Early(b, device, metric, horizon) && Early(c, device, metric, horizon)
    requires start <= a.time && b.time < c.time == a.time && b.value == c.value != a.value
    ensures var first := log + Changes(log, [a], start);
            LoggedAt(first + Changes(first, [b, c], b.time), device, metric, c.time) == Some(a.value)
    ensures LoggedAt(log + [a] + [b] + [c], device, metric, c.time) == Some(c.value)
  {
    hide Changes, Prior, From;
    NothingBefore(log, device, metric, horizon, start);
    OnePoll(log, a, start);
    var first := log + [a];
    NothingBefore(log, device, metric, horizon, b.time);
    PriorSnoc(log, a, device, metric, b.time);
    OnePoll(first, b, b.time);
    TwoPolls(first, b, c, b.time);
    assert [b] + [] == [b];
    NothingBefore(log, device, metric, horizon, c.time + 1);
    PriorSnoc(log, a, device, metric, c.time + 1);
    PriorSnoc(first, b, device, metric, c.time + 1);
    PriorSnoc(first + [b], c, device, metric, c.time + 1);
  }

  lemma NotRight(log: seq<LogRow>, spans: seq<Span>, polls: seq<seq<LogRow>>, device: int, metric: string, t: int)
    requires |spans| == |polls| && Contents(spans, polls, device)
    requires LoggedAt(Logged(log, spans, polls, |spans|), device, metric, t)
          != LoggedAt(log + Every(polls, |polls|), device, metric, t)
    ensures !AlwaysRight(log, spans, device)
  {
    hide Contents, LoggedAt, Logged, Every;
    assert !Right(log, spans, polls, device);
  }

  lemma ThreeMore(log: seq<LogRow>, a: LogRow, b: LogRow, c: LogRow)
    ensures log + ([a] + [b] + [c]) == log + [a] + [b] + [c]
    ensures log + ([a, b] + [c]) == log + [a] + [b] + [c]
    ensures log + ([a] + [b, c]) == log + [a] + [b] + [c]
  {
  }

  lemma HemmedIsWrong(log: seq<LogRow>, spans: seq<Span>, device: int, horizon: int, i: nat, j: nat, k: nat)
    requires From(log, device, horizon) && EndBy(spans, horizon) && i < j < k < |spans|
    requires spans[i].start < spans[i].end && spans[j].start < spans[j].end
    requires Hemmed(spans[i], spans[j], spans[k])
    ensures !AlwaysRight(log, spans, device)
  {
    hide Changes, LoggedAt, Logged, Every, AlwaysRight, Contents, From, Polled;
    var si, sj, sk := spans[i].start, spans[j].start, spans[k].start;
    var a, b, c := Poll(si, 1.0, device), Poll(sj, 1.0, device), Poll(sk, 2.0, device);
    OneIsPolled(a, si, spans[i].end);
    OneIsPolled(b, sj, spans[j].end);
    OneIsPolled(c, sk, spans[k].end);
    var polls := Fill(spans, device, i, [a], j, [b], k, [c]);
    ThreeCommits(log, spans, polls, i, j, k);
    BetweenIsLost(log, device, "x", horizon, a, b, c);
    ThreeMore(log, a, b, c);
    NotRight(log, spans, polls, device, "x", sj);
  }

  lemma StartsWithinIsWrong(log: seq<LogRow>, spans: seq<Span>, device: int, horizon: int, i: nat, j: nat)
    requires From(log, device, horizon) && EndBy(spans, horizon) && i < j < |spans|
    requires spans[i].start < spans[j].start < spans[i].end && spans[j].start + 2 <= spans[j].end
    ensures !AlwaysRight(log, spans, device)
  {
    hide Changes, LoggedAt, Logged, Every, AlwaysRight, Contents, From, Polled;
    var si, sj := spans[i].start, spans[j].start;
    var a, b, c := Poll(si, 1.0, device), Poll(sj, 2.0, device), Poll(sj + 1, 1.0, device);
    TwoArePolled(a, b, si, spans[i].end);
    OneIsPolled(c, sj, spans[j].end);
    var polls := Fill(spans, device, i, [a, b], j, [c], j, []);
    TwoCommits(log, spans, polls, i, j);
    RepeatedIsLost(log, device, "x", horizon, a, b, c);
    ThreeMore(log, a, b, c);
    NotRight(log, spans, polls, device, "x", sj + 1);
  }

  lemma StartsBeforeIsWrong(log: seq<LogRow>, spans: seq<Span>, device: int, horizon: int, i: nat, j: nat)
    requires From(log, device, horizon) && EndBy(spans, horizon) && i < j < |spans|
    requires spans[j].start <= spans[i].start < spans[j].end
    requires spans[i].start + 2 <= spans[i].end && spans[j].start + 2 <= spans[j].end
    ensures !AlwaysRight(log, spans, device)
  {
    hide Changes, LoggedAt, Logged, Every, AlwaysRight, Contents, From, Polled;
    var si, sj := spans[i].start, spans[j].start;
    var at := if si == sj then si + 1 else si;
    var a, b, c := Poll(at, 2.0, device), Poll(sj, 1.0, device), Poll(at, 1.0, device);
    OneIsPolled(a, si, spans[i].end);
    TwoArePolled(b, c, sj, spans[j].end);
    var polls := Fill(spans, device, i, [a], j, [b, c], j, []);
    TwoCommits(log, spans, polls, i, j);
    LagIsLost(log, device, "x", horizon, a, b, c, si);
    ThreeMore(log, a, b, c);
    NotRight(log, spans, polls, device, "x", at);
  }

  /**
   * The orders of commits that keep the configuration history, exactly: over every
   * content of the chunks the log is right at every instant if and only if no two
   * chunks overlap and none is committed after two that it lies between.
   */
  lemma OrderIsExact(log: seq<LogRow>, spans: seq<Span>, device: int, horizon: int)
    requires From(log, device, horizon) && EndBy(spans, horizon)
    requires forall i :: 0 <= i < |spans| ==> spans[i].start + 2 <= spans[i].end
    ensures AlwaysRight(log, spans, device) <==> Committable(spans)
  {
    if Committable(spans) {
      forall polls, metric, t | Contents(spans, polls, device)
        ensures LoggedAt(Logged(log, spans, polls, |spans|), device, metric, t)
             == LoggedAt(log + Every(polls, |polls|), device, metric, t)
      {
        OrderIsRight(log, spans, polls, |spans|, device, horizon, metric, t);
      }
    } else {
      hide AlwaysRight;
      if i, j :| 0 <= i < j < |spans| && !Apart(spans[i], spans[j]) {
        if spans[i].start < spans[j].start {
          StartsWithinIsWrong(log, spans, device, horizon, i, j);
        } else {
          StartsBeforeIsWrong(log, spans, device, horizon, i, j);
        }
      } else {
        var i, j, k :| 0 <= i < j < k < |spans| && Hemmed(spans[i], spans[j], spans[k]);
        HemmedIsWrong(log, spans, device, horizon, i, j, k);
      }
    }
  }

  // ----- the units of a backfill ---------------------------------------------------------------------

  function UnitPolls(us: seq<Unit>, m: Migration): (polls: seq<seq<LogRow>>)
    ensures |polls| == |us| && forall i :: 0 <= i < |us| ==> polls[i] == ConfigPolls(us[i].rows, us[i], m)
  {
    seq(|us|, i requires 0 <= i < |us| => ConfigPolls(us[i].rows, us[i], m))
  }

  /** From where a chunk is compared with the log to its last poll; nothing when it polls nothing. */
  function Extent(u: Unit, m: Migration): Span {
    var polls := ConfigPolls(u.rows, u, m);
    Span(u.span.start, if polls == [] then u.span.start else polls[|polls| - 1].time + 1)
  }

  function Extents(us: seq<Unit>, m: Migration): (spans: seq<Span>)
    ensures |spans| == |us| && forall i :: 0 <= i < |us| ==> spans[i] == Extent(us[i], m)
  {
    seq(|us|, i requires 0 <= i < |us| => Extent(us[i], m))
  }

  lemma {:induction false} AllPollsSnoc(us: seq<Unit>, u: Unit, m: Migration)
    ensures AllPolls(us + [u], m) == AllPolls(us, m) + ConfigPolls(u.rows, u, m)
  {
    hide ConfigPolls;
    if us == [] {
      assert [] + [u] == [u] && [u][1..] == [];
    } else {
      assert (us + [u])[1..] == us[1..] + [u];
      AllPollsSnoc(us[1..], u, m);
    }
  }

  lemma OneUnitLogs(log: seq<LogRow>, u: Unit, m: Migration)
    ensures LogAfter(log, [u], m) == log + Changes(log, ConfigPolls(u.rows, u, m), u.span.start)
  {
    hide ConfigPolls, Changes;
    assert [u][1..] == [];
  }

  /** A run of units is such a run of commits. */
  lemma {:induction false} RunIsLogged(log: seq<LogRow>, us: seq<Unit>, m: Migration, n: nat)
    requires n <= |us|
    ensures LogAfter(log, us[..n], m) == Logged(log, Extents(us, m), UnitPolls(us, m), n)
    ensures AllPolls(us[..n], m) == Every(UnitPolls(us, m), n)
  {
    hide ConfigPolls, Changes, Extents, UnitPolls;
    if n > 0 {
      var before, u := us[..n - 1], us[n - 1];
      assert us[..n] == before + [u];
      RunIsLogged(log, us, m, n - 1);
      RunsConcat(log, before, [u], m);
      OneUnitLogs(LogAfter(log, before, m), u, m);
      AllPollsSnoc(before, u, m);
    }
  }

  lemma UnitsArePolled(us: seq<Unit>, m: Migration)
    requires forall i :: 0 <= i < |us| ==> Sorted(us[i].rows)
    ensures Contents(Extents(us, m), UnitPolls(us, m), m.device)
  {
    hide ConfigPolls;
    forall i | 0 <= i < |us|
      ensures Polled(UnitPolls(us, m)[i], m.device, Extents(us, m)[i].start, Extents(us, m)[i].end)
    {
      ChunkIsPolled(us[i].rows, us[i], m);
    }
  }

  predicate AllBefore(rows: seq<LogRow>, horizon: int) { forall i :: 0 <= i < |rows| ==> rows[i].time < horizon }

  lemma {:induction false} EachBefore(polls: seq<seq<LogRow>>, n: nat, horizon: int, i: nat)
    requires i < n <= |polls| && AllBefore(Every(polls, n), horizon)
    ensures AllBefore(polls[i], horizon)
  {
    var before, last := Every(polls, n - 1), polls[n - 1];
    assert forall k :: 0 <= k < |before| ==> before[k] == Every(polls, n)[k];
    assert forall k :: 0 <= k < |last| ==> last[k] == Every(polls, n)[|before| + k];
    if i < n - 1 { EachBefore(polls, n - 1, horizon, i); }
  }

  lemma ExtentEnds(u: Unit, m: Migration, horizon: int)
    requires AllBefore(ConfigPolls(u.rows, u, m), horizon) && Open(Extent(u, m))
    ensures Extent(u, m).end <= horizon
  {
    hide ConfigPolls;
  }

  lemma ExtentsEnd(us: seq<Unit>, m: Migration, horizon: int)
    requires AllBefore(Every(UnitPolls(us, m), |us|), horizon)
    ensures EndBy(Extents(us, m), horizon)
  {
    hide ConfigPolls, Every, Extent, Open, AllBefore;
    forall i | 0 <= i < |us| && Open(Extent(us[i], m)) ensures Extent(us[i], m).end <= horizon {
      EachBefore(UnitPolls(us, m), |us|, horizon, i);
      ExtentEnds(us[i], m, horizon);
    }
  }

  lemma {:induction false} ReplayUnitsGo(m: Migration, ids: seq<string>, primary: string)
    requires forall tier :: tier in m.tiers ==> Sorted(m.tiers[tier])
    ensures forall i :: 0 <= i < |ReplayUnits(m, ids, primary)| ==>
              Sorted(ReplayUnits(m, ids, primary)[i].rows)
  {
    if ids != [] {
      IdUnitsInTimeOrder(m, ids[0], primary);
      ReplayUnitsGo(m, ids[1..], primary);
    }
    hide IdChunks;
  }

  /** The pieces of the carry ascend, from the first retained sample on. */
  lemma CarryChunksAscend(m: Migration, id: string)
    ensures var chunks := ChunksOf(CarryPieces(m, id));
            && ChunksAscend(chunks) && ChunksForward(chunks)
            && forall i :: 0 <= i < |chunks| && OfId(m.legacyRaw, id) != [] ==>
                 First(OfId(m.legacyRaw, id)) <= chunks[i].span.start
  {
    var mine := OfId(m.legacyRaw, id);
    if mine != [] {
      var w := Window(Minute, First(mine), Last(mine) + BucketWidthMs(Minute));
      PiecesAscend([w], w.from, w.to);
    }
    hide OfId, First, Last, ReplayPieces;
  }

  lemma CarryUnitsGo(m: Migration, id: string)
    requires Sorted(m.legacyRaw)
    ensures InTimeOrder(CarryPart(m, id))
  {
    CarryChunksAscend(m, id);
    hide CarryPieces, ChunksOf, OfId, First;
  }

  /** The legacy relations are read in time order. */
  predicate InOrder(m: Migration) {
    Sorted(m.legacyRaw) && forall tier :: tier in m.tiers ==> Sorted(m.tiers[tier])
  }

  /** What the backfill has polled, in the order of its commits. */
  function RunPolls(m: Migration): seq<LogRow>
    requires m.sourceId.Some?
  {
    AllPolls(RowUnits(m, m.sourceId.value), m)
  }

  /** Its chunks, in that order. */
  function RunSpans(m: Migration): (spans: seq<Span>)
    requires m.sourceId.Some?
    ensures var us := RowUnits(m, m.sourceId.value);
            |spans| == |us| && forall i :: 0 <= i < |us| ==> spans[i] == us[i].span
  {
    var us := RowUnits(m, m.sourceId.value);
    seq(|us|, i requires 0 <= i < |us| => us[i].span)
  }

  /** What its chunks take up, in that order. */
  function RunExtents(m: Migration): seq<Span>
    requires m.sourceId.Some?
  {
    Extents(RowUnits(m, m.sourceId.value), m)
  }

  lemma RowUnitsGo(m: Migration)
    requires m.sourceId.Some? && InOrder(m)
    ensures var us := RowUnits(m, m.sourceId.value);
            forall i :: 0 <= i < |us| ==> Sorted(us[i].rows)
  {
    hide CarryPart, ReplayUnits, Sorted;
    CarryUnitsGo(m, m.sourceId.value);
    ReplayUnitsGo(m, SourceOrder(m, m.sourceId.value), m.sourceId.value);
  }

  /**
   * Configuration history over every run of the backfill that reports `backfilled`, on
   * a server that has been logging since the horizon: at every instant the log says
   * what it would say if every poll had been logged, provided the chunks are committed
   * in such an order.
   */
  lemma ConfigHistoryIsKept(db: Db, m: Migration, kills: seq<nat>, horizon: int, metric: string, t: int)
    requires Active(db, m) && Unseen(db, m) && Distinct(m.ids) && InOrder(m)
    requires Attempts(db, m, kills).stage == Backfilled
    requires From(db.log, m.device, horizon) && AllBefore(RunPolls(m), horizon)
    requires Committable(RunExtents(m))
    ensures LoggedAt(Attempts(db, m, kills).log, m.device, metric, t)
         == LoggedAt(db.log + RunPolls(m), m.device, metric, t)
  {
    hide CarryPart, ReplayPart, CleanRun, Attempts, LogAfter, AllPolls, LoggedAt, Committable, Unseen, Every, Logged;
    hide ConfigPolls, IdChunks, Contents;
    var us := RowUnits(m, m.sourceId.value);
    var polls: seq<seq<LogRow>> := UnitPolls(us, m);
    BackfillIsCrashEquivalent(db, m, kills);
    CleanRunWrites(db, m);
    assert us[..|us|] == us;
    RunIsLogged(db.log, us, m, |us|);
    RowUnitsGo(m);
    UnitsArePolled(us, m);
    ExtentsEnd(us, m, horizon);
    OrderIsRight(db.log, Extents(us, m), polls, |us|, m.device, horizon, metric, t);
  }

  /**
   * For the chunks of a backfill: whatever configuration they read, the log is right
   * at every instant, if and only if they are committed in such an order.
   */
  lemma RunOrderIsExact(db: Db, m: Migration, horizon: int)
    requires m.sourceId.Some? && From(db.log, m.device, horizon)
    requires forall u :: u in RowUnits(m, m.sourceId.value) ==> u.span.start + 2 <= u.span.end <= horizon
    ensures AlwaysRight(db.log, RunSpans(m), m.device) <==> Committable(RunSpans(m))
  {
    hide RowUnits, AlwaysRight, Committable;
    var us := RowUnits(m, m.sourceId.value);
    forall i | 0 <= i < |us| ensures us[i].span.start + 2 <= us[i].span.end <= horizon { assert us[i] in us; }
    OrderIsExact(db.log, RunSpans(m), m.device, horizon);
  }

  // ----- orders that are such ------------------------------------------------------------------------

  /** Everything replayed lies before everything carried, and both go forward in time. */
  predicate RunInOrder(m: Migration, primary: string) {
    var carry, replay := CarryPart(m, primary), ReplayPart(m, primary);
    && InTimeOrder(carry) && InTimeOrder(replay)
    && forall i, j :: 0 <= i < |replay| && 0 <= j < |carry| ==> replay[i].span.end <= carry[j].span.start
  }

  lemma ExtentIsWithin(u: Unit, m: Migration)
    requires Sorted(u.rows)
    ensures Open(Extent(u, m)) ==> Extent(u, m).end <= u.span.end
  {
    ChunkIsPolled(u.rows, u, m);
  }

  lemma InOrderIsCommittable(m: Migration)
    requires m.sourceId.Some? && RunInOrder(m, m.sourceId.value)
    ensures Committable(RunExtents(m))
  {
    hide CarryPart, ReplayPart, Extent;
    var us := RowUnits(m, m.sourceId.value);
    forall i | 0 <= i < |us| ensures Open(Extent(us[i], m)) ==> Extent(us[i], m).end <= us[i].span.end {
      ExtentIsWithin(us[i], m);
    }
    forall i | 0 <= i < |us| ensures Extent(us[i], m).start == us[i].span.start { ExtentStarts(us[i], m); }
  }

  lemma ExtentStarts(u: Unit, m: Migration)
    ensures Extent(u, m).start == u.span.start
  {
  }

  lemma {:induction false} FirstOfId(rows: seq<Bucket>, id: string, bound: int)
    requires OfId(rows, id) != [] && forall i :: 0 <= i < |rows| && rows[i].id == id ==> rows[i].time >= bound
    ensures First(OfId(rows, id)) >= bound
  {
    assert forall i :: 0 <= i < |rows[1..]| ==> rows[1..][i] == rows[i + 1];
    if rows[0].id == id { assert OfId(rows, id)[1..] == OfId(rows[1..], id); }
    if OfId(rows[1..], id) != [] { FirstOfId(rows[1..], id, bound); }
  }

  lemma CarryStartsAtBound(m: Migration, id: string, bound: int)
    requires forall i :: 0 <= i < |m.legacyRaw| && m.legacyRaw[i].id == id ==> m.legacyRaw[i].time >= bound
    ensures forall i :: 0 <= i < |CarryPart(m, id)| ==> CarryPart(m, id)[i].span.start >= bound
  {
    CarryChunksAscend(m, id);
    if OfId(m.legacyRaw, id) != [] {
      FirstOfId(m.legacyRaw, id, bound);
      hide CarryPieces, ChunksOf, OfId, First;
    } else {
      NoCarry(m, id);
    }
  }

  lemma NoCarry(m: Migration, id: string)
    requires OfId(m.legacyRaw, id) == []
    ensures CarryPart(m, id) == []
  {
  }

  lemma ReplayEndsAtBound(m: Migration, id: string, bound: int)
    requires m.replayTo == Some(bound)
    ensures forall i :: 0 <= i < |IdChunks(m, id)| ==> IdChunks(m, id)[i].span.end <= bound
  {
    var ws := TierWindows(m, id, TIERS);
    if ws != [] { PiecesAscend(ws, FirstFrom(ws), Min(bound, LastTo(ws))); }
  }

  /** One source id is committed in such an order: the carry starts where the replay ends. */
  lemma OneIdIsCommittable(m: Migration, id: string, bound: int)
    requires m.sourceId == Some(id) && SourceOrder(m, id) == [id] && m.replayTo == Some(bound) && InOrder(m)
    requires forall i :: 0 <= i < |m.legacyRaw| && m.legacyRaw[i].id == id ==> m.legacyRaw[i].time >= bound
    ensures Committable(RunExtents(m))
  {
    hide CarryPart, IdChunks;
    CarryUnitsGo(m, id);
    CarryStartsAtBound(m, id, bound);
    IdUnitsInTimeOrder(m, id, id);
    ReplayUnitsOfOne(m, id);
    ReplayEndsAtBound(m, id, bound);
    InOrderIsCommittable(m);
  }
}
