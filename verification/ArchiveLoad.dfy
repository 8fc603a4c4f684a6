/**
 * Loading an archive's readings in packages/db/src/archive-import.ts: numbered
 * placeholders, fixed-size batches, and the one pass that routes each reading to
 * `metrics_raw` or to its tier's staging table.
 */
module ArchiveLoad {
  import opened Wrappers
  import opened Replay
  import opened ChangeFilter
  import opened ExportRun

  // ----- one multi-row INSERT ----------------------------------------------

  /** `($1, $2), ($3, $4), …` as the numbers that stand in it. */
  function Placeholders(rows: nat, columns: nat): seq<seq<nat>> {
    seq(rows, r requires 0 <= r => seq(columns, c requires 0 <= c => Number(r, columns, c)))
  }

  function Number(r: nat, columns: nat, c: nat): (n: nat) { r * columns + c + 1 }

  function Flat<V>(parts: seq<seq<V>>): seq<V> {
    if parts == [] then [] else Flat(parts[..|parts| - 1]) + parts[|parts| - 1]
  }

  lemma {:induction false} FlatOfEqualRows<V>(rows: seq<seq<V>>, columns: nat, r: nat, c: nat)
    requires forall i :: 0 <= i < |rows| ==> |rows[i]| == columns
    requires r < |rows| && c < columns
    ensures |Flat(rows)| == |rows| * columns
    ensures Number(r, columns, c) <= |Flat(rows)| && Flat(rows)[Number(r, columns, c) - 1] == rows[r][c]
  {
    var before, last := rows[..|rows| - 1], rows[|rows| - 1];
    FlatLength(before, columns);
    assert |rows| * columns == |before| * columns + columns;
    if r < |before| {
      FlatOfEqualRows(before, columns, r, c);
    }
  }

  lemma {:induction false} FlatLength<V>(rows: seq<seq<V>>, columns: nat)
    requires forall i :: 0 <= i < |rows| ==> |rows[i]| == columns
    ensures |Flat(rows)| == |rows| * columns
  {
    if rows != [] {
      FlatLength(rows[..|rows| - 1], columns);
      assert |rows| * columns == (|rows| - 1) * columns + columns;
    }
  }

  lemma Monotone(a: nat, b: nat, k: nat)
    requires a <= b
    ensures a * k <= b * k
  {
  }

  lemma RowAndColumn(r: nat, c: nat, columns: nat)
    requires c < columns
    ensures (r * columns + c) / columns == r && (r * columns + c) % columns == c
  {
    var n := r * columns + c;
    var q := n / columns;
    assert n == q * columns + n % columns;
    if q < r { Monotone(q + 1, r, columns); }
    if r < q { Monotone(r + 1, q, columns); }
  }

  /**
   * Every value of a statement is bound by exactly one placeholder: the numbers run
   * from 1 to the number of values, and number `n` stands in the row and column the
   * value came from.
   */
  lemma PlaceholdersBind<V>(rows: seq<seq<V>>, columns: nat, n: nat, r: nat, c: nat)
    requires columns > 0 && forall i :: 0 <= i < |rows| ==> |rows[i]| == columns
    requires r < |rows| && c < columns
    ensures 1 <= Placeholders(|rows|, columns)[r][c] <= |Flat(rows)|
    ensures Flat(rows)[Placeholders(|rows|, columns)[r][c] - 1] == rows[r][c]
    ensures n > 0 ==> (Placeholders(|rows|, columns)[r][c] == n <==> r == (n - 1) / columns && c == (n - 1) % columns)
  {
    hide Flat;
    FlatOfEqualRows(rows, columns, r, c);
    RowAndColumn(r, c, columns);
  }

  datatype Statement<V> = Statement(placeholders: seq<seq<nat>>, values: seq<V>)

  predicate WellBound<V>(st: Statement<V>) {
    forall r, c :: 0 <= r < |st.placeholders| && 0 <= c < |st.placeholders[r]| ==>
      1 <= st.placeholders[r][c] <= |st.values|
  }

  /** A row as inserted: each placeholder replaced by the value bound to it. */
  function RowInserted<V>(st: Statement<V>, r: nat): (row: seq<V>)
    requires WellBound(st) && r < |st.placeholders|
  {
    seq(|st.placeholders[r]|, c requires 0 <= c < |st.placeholders[r]| => st.values[st.placeholders[r][c] - 1])
  }

  function RowsInserted<V>(st: Statement<V>): (rows: seq<seq<V>>)
    requires WellBound(st)
  {
    seq(|st.placeholders|, r requires 0 <= r < |st.placeholders| => RowInserted(st, r))
  }

  lemma StatementIsBound<V>(rows: seq<seq<V>>, columns: nat)
    requires forall i :: 0 <= i < |rows| ==> |rows[i]| == columns
    ensures WellBound(Statement(Placeholders(|rows|, columns), Flat(rows)))
  {
    hide Flat;
    forall r, c | 0 <= r < |rows| && 0 <= c < columns
      ensures 1 <= Placeholders(|rows|, columns)[r][c] <= |Flat(rows)|
    {
      FlatOfEqualRows(rows, columns, r, c);
    }
  }

  lemma RowComesBack<V>(rows: seq<seq<V>>, columns: nat, r: nat)
    requires forall i :: 0 <= i < |rows| ==> |rows[i]| == columns
    requires r < |rows| && WellBound(Statement(Placeholders(|rows|, columns), Flat(rows)))
    ensures RowInserted(Statement(Placeholders(|rows|, columns), Flat(rows)), r) == rows[r]
  {
    hide Flat, WellBound;
    forall c | 0 <= c < columns
      ensures Number(r, columns, c) <= |Flat(rows)| && Flat(rows)[Number(r, columns, c) - 1] == rows[r][c]
    {
      FlatOfEqualRows(rows, columns, r, c);
    }
  }

  lemma StatementInsertsRows<V>(rows: seq<seq<V>>, columns: nat)
    requires forall i :: 0 <= i < |rows| ==> |rows[i]| == columns
    ensures var st := Statement(Placeholders(|rows|, columns), Flat(rows));
            WellBound(st) && RowsInserted(st) == rows
  {
    hide Flat, WellBound, RowInserted;
    StatementIsBound(rows, columns);
    forall r | 0 <= r < |rows| { RowComesBack(rows, columns, r); }
  }

  /** What a run of statements inserts, in order. */
  function AllInserted<V>(statements: seq<Statement<V>>): seq<seq<V>>
    requires forall st :: st in statements ==> WellBound(st)
  {
    if statements == [] then []
    else AllInserted(statements[..|statements| - 1]) + RowsInserted(statements[|statements| - 1])
  }

  /** Every statement inserts between one and `size` rows, and together they insert all of them. */
  method InsertRows<V>(rows: seq<seq<V>>, columns: nat, size: nat) returns (statements: seq<Statement<V>>, written: nat)
    requires size > 0 && forall i :: 0 <= i < |rows| ==> |rows[i]| == columns
    ensures forall st :: st in statements ==>
              WellBound(st) && 0 < |st.placeholders| <= size && |st.values| == |st.placeholders| * columns
    ensures AllInserted(statements) == rows && written == |rows|
  {
    statements, written := [], 0;
    while written < |rows|
      invariant written <= |rows|
      invariant forall st :: st in statements ==>
                  WellBound(st) && 0 < |st.placeholders| <= size && |st.values| == |st.placeholders| * columns
      invariant AllInserted(statements) == rows[..written]
    {
      var next := if written + size < |rows| then written + size else |rows|;
      var batch := rows[written..next];
      StatementInsertsRows(batch, columns);
      FlatLength(batch, columns);
      ghost var before := statements;
      statements := statements + [Statement(Placeholders(|batch|, columns), Flat(batch))];
      assert statements[..|before|] == before;
      written := next;
    }
    assert rows[..|rows|] == rows;
  }

  // ----- the batching writer -----------------------------------------------

  class BatchWriter<T> {
    const size: nat
    var pending: seq<T>
    var written: nat
    /** The batches handed to `insert`, oldest first. */
    var batches: seq<seq<T>>

    predicate Valid()
      reads this
    {
      && |pending| < size
      && written == |Flat(batches)|
      && forall i :: 0 <= i < |batches| ==> 0 < |batches[i]| <= size
    }

    /** Every row pushed so far. */
    function Pushed(): seq<T>
      reads this
    {
      Flat(batches) + pending
    }

    constructor (size: nat)
      requires size > 0
      ensures Valid() && Pushed() == [] && batches == [] && this.size == size
    {
      this.size := size;
      pending, written, batches := [], 0, [];
    }

    method Insert()
      requires pending != [] && |pending| <= size && written == |Flat(batches)|
      requires forall i :: 0 <= i < |batches| ==> 0 < |batches[i]| <= size
      modifies this
      ensures Valid() && pending == [] && Flat(batches) == old(Pushed())
    {
      ghost var before := batches;
      written := written + |pending|;
      batches := batches + [pending];
      assert batches[..|before|] == before;
      pending := [];
    }

    method Flush()
      requires Valid()
      modifies this
      ensures Valid() && pending == [] && Flat(batches) == old(Pushed()) == Pushed()
    {
      if |pending| == 0 { return; }
      Insert();
    }

    method Push(row: T)
      requires Valid()
      modifies this
      ensures Valid() && Pushed() == old(Pushed()) + [row]
    {
      pending := pending + [row];
      if |pending| >= size { Insert(); }
    }
  }

  // ----- one pass, routed by tier ------------------------------------------

  datatype Line = Blank | Unreadable | Row(reading: Reading)

  datatype LoadError = BadLine(line: nat) | TierNotDeclared(line: nat)

  function Mapped(r: Reading, deviceMap: map<string, string>): Reading {
    if r.series.device in deviceMap then r.(series := Series(deviceMap[r.series.device], r.series.metric)) else r
  }

  /** The readings of one tier, in file order, under their target's names. */
  function TierRows(lines: seq<Line>, tier: Tier, deviceMap: map<string, string>): seq<Reading> {
    if lines == [] then []
    else
      var before, line := TierRows(lines[..|lines| - 1], tier, deviceMap), lines[|lines| - 1];
      if line.Row? && line.reading.tier == tier then before + [Mapped(line.reading, deviceMap)] else before
  }

  lemma TierRowsSnoc(lines: seq<Line>, line: Line, tier: Tier, deviceMap: map<string, string>)
    ensures TierRows(lines + [line], tier, deviceMap)
         == TierRows(lines, tier, deviceMap)
            + if line.Row? && line.reading.tier == tier then [Mapped(line.reading, deviceMap)] else []
  {
    assert (lines + [line])[..|lines|] == lines;
  }

  /** How many rows of the tier the lines hold. */
  function CountOf(lines: seq<Line>, tier: Tier): nat {
    if lines == [] then 0
    else
      var line := lines[|lines| - 1];
      CountOf(lines[..|lines| - 1], tier) + if line.Row? && line.reading.tier == tier then 1 else 0
  }

  /**
   * Each row of a tier has its place among the rows of that tier: at the same instant,
   * with the same value, metric and duration, under the name that the map gives its
   * device, or its own where the map has none. There are no others.
   */
  lemma {:induction false} LineBecomesRow(lines: seq<Line>, tier: Tier, deviceMap: map<string, string>, i: nat)
    requires i < |lines| && lines[i].Row? && lines[i].reading.tier == tier
    ensures |TierRows(lines, tier, deviceMap)| == CountOf(lines, tier)
    ensures CountOf(lines[..i], tier) < CountOf(lines, tier)
    ensures var r, row := lines[i].reading, TierRows(lines, tier, deviceMap)[CountOf(lines[..i], tier)];
            && row.time == r.time && row.value == r.value && row.durMs == r.durMs && row.tier == tier
            && row.series.metric == r.series.metric
            && (r.series.device in deviceMap ==> row.series.device == deviceMap[r.series.device])
            && (r.series.device !in deviceMap ==> row.series.device == r.series.device)
  {
    var before := lines[..|lines| - 1];
    RowsAreCounted(before, tier, deviceMap);
    if i < |before| {
      assert before[..i] == lines[..i];
      LineBecomesRow(before, tier, deviceMap, i);
    }
  }

  lemma {:induction false} RowsAreCounted(lines: seq<Line>, tier: Tier, deviceMap: map<string, string>)
    ensures |TierRows(lines, tier, deviceMap)| == CountOf(lines, tier)
  {
    if lines != [] { RowsAreCounted(lines[..|lines| - 1], tier, deviceMap); }
  }

  /** What stops the load at this line, if anything. */
  function Problem(line: Line, lineNo: nat, declared: set<Tier>): Option<LoadError> {
    match line
    case Blank => None
    case Unreadable => Some(BadLine(lineNo))
    case Row(r) => if r.tier == Raw || r.tier in declared then None else Some(TierNotDeclared(lineNo))
  }

  /** What stops the load: the problem of the first line that has one. */
  function FirstProblem(lines: seq<Line>, declared: set<Tier>): Option<LoadError> {
    if lines == [] then None
    else
      var before := FirstProblem(lines[..|lines| - 1], declared);
      if before.Some? then before else Problem(lines[|lines| - 1], |lines|, declared)
  }

  lemma {:induction false} StopsHere(lines: seq<Line>, i: nat, n: nat, declared: set<Tier>)
    requires i < n <= |lines|
    requires FirstProblem(lines[..i], declared) == None && Problem(lines[i], i + 1, declared).Some?
    ensures FirstProblem(lines[..n], declared) == Problem(lines[i], i + 1, declared)
  {
    assert lines[..n][..n - 1] == lines[..n - 1];
    if n > i + 1 { StopsHere(lines, i, n - 1, declared); }
  }

  /** A line that cannot be read, or holds a row of a bucket tier of which the manifest declares none. */
  predicate Stops(line: Line, declared: set<Tier>) {
    line.Unreadable?
    || (line.Row? && line.reading.tier in {Minute, Hourly, Daily} && line.reading.tier !in declared)
  }

  /** The load stops at the first such line, numbered from one, with its reason, and only there. */
  lemma {:induction false} FirstProblemExactly(lines: seq<Line>, declared: set<Tier>)
    ensures FirstProblem(lines, declared) == None <==> forall i :: 0 <= i < |lines| ==> !Stops(lines[i], declared)
    ensures forall i :: 0 <= i < |lines| && Stops(lines[i], declared)
                        && (forall j :: 0 <= j < i ==> !Stops(lines[j], declared)) ==>
              FirstProblem(lines, declared)
              == Some(if lines[i].Unreadable? then BadLine(i + 1) else TierNotDeclared(i + 1))
  {
    if lines != [] {
      var before, n := lines[..|lines| - 1], |lines| - 1;
      FirstProblemExactly(before, declared);
      assert forall i :: 0 <= i < n ==> before[i] == lines[i];
      ProblemIsStop(lines[n], |lines|, declared);
    }
  }

  lemma ProblemIsStop(line: Line, lineNo: nat, declared: set<Tier>)
    ensures Problem(line, lineNo, declared)
         == if !Stops(line, declared) then None
            else Some(if line.Unreadable? then BadLine(lineNo) else TierNotDeclared(lineNo))
  {
    if line.Row? {
      match line.reading.tier { case Raw => case Minute => case Hourly => case Daily => }
    }
  }

  function Oldest(lines: seq<Line>): Option<int> {
    if lines == [] then None
    else
      var before, line := Oldest(lines[..|lines| - 1]), lines[|lines| - 1];
      if line.Row? && (before.None? || line.reading.time < before.value) then Some(line.reading.time) else before
  }

  function Newest(lines: seq<Line>): Option<int> {
    if lines == [] then None
    else
      var before, line := Newest(lines[..|lines| - 1]), lines[|lines| - 1];
      if line.Row? && (before.None? || line.reading.time > before.value) then Some(line.reading.time) else before
  }

  /** The span of the load holds every reading, with one at each end. */
  lemma {:induction false} SpanHoldsReadings(lines: seq<Line>)
    ensures Oldest(lines).Some? <==> Newest(lines).Some?
    ensures forall i :: 0 <= i < |lines| && lines[i].Row? ==>
              Oldest(lines).Some? && Oldest(lines).value <= lines[i].reading.time <= Newest(lines).value
    ensures Oldest(lines).Some? ==>
              && (exists i :: 0 <= i < |lines| && lines[i].Row? && lines[i].reading.time == Oldest(lines).value)
              && (exists i :: 0 <= i < |lines| && lines[i].Row? && lines[i].reading.time == Newest(lines).value)
  {
    if lines != [] {
      var before, line := lines[..|lines| - 1], lines[|lines| - 1];
      SpanHoldsReadings(before);
      assert forall i :: 0 <= i < |before| ==> lines[i] == before[i];
      if Oldest(before).Some? {
        var i, j :| 0 <= i < |before| && 0 <= j < |before| && before[i].Row? && before[j].Row?
                    && before[i].reading.time == Oldest(before).value && before[j].reading.time == Newest(before).value;
        assert lines[i].Row? && lines[j].Row?;
      }
      if line.Row? { assert lines[|lines| - 1].Row?; }
    }
  }

  class Loader {
    const raw: BatchWriter<Reading>
    const minute: BatchWriter<Reading>
    const hourly: BatchWriter<Reading>
    const daily: BatchWriter<Reading>
    var oldest: Option<int>
    var newest: Option<int>

    predicate Valid()
      reads this, raw, minute, hourly, daily
    {
      && raw != minute && raw != hourly && raw != daily && minute != hourly && minute != daily && hourly != daily
      && raw.Valid() && minute.Valid() && hourly.Valid() && daily.Valid()
    }

    function Pushed(tier: Tier): seq<Reading>
      reads this, raw, minute, hourly, daily
    {
      match tier
      case Raw => raw.Pushed()
      case Minute => minute.Pushed()
      case Hourly => hourly.Pushed()
      case Daily => daily.Pushed()
    }

    function Inserted(tier: Tier): seq<Reading>
      reads this, raw, minute, hourly, daily
    {
      match tier
      case Raw => Flat(raw.batches)
      case Minute => Flat(minute.batches)
      case Hourly => Flat(hourly.batches)
      case Daily => Flat(daily.batches)
    }

    /** Each writer was handed exactly its tier's rows, in file order. */
    predicate Routed(lines: seq<Line>, deviceMap: map<string, string>)
      reads this, raw, minute, hourly, daily
    {
      forall tier: Tier :: Pushed(tier) == TierRows(lines, tier, deviceMap)
    }

    constructor (size: nat)
      requires size > 0
      ensures Valid() && Routed([], map[]) && oldest == newest == None
      ensures fresh(raw) && fresh(minute) && fresh(hourly) && fresh(daily)
      ensures raw.batches == minute.batches == hourly.batches == daily.batches == []
    {
      raw := new BatchWriter(size);
      minute := new BatchWriter(size);
      hourly := new BatchWriter(size);
      daily := new BatchWriter(size);
      oldest, newest := None, None;
    }

    method WidenSpan(at: int)
      modifies this
      ensures oldest == Some(if old(oldest).None? || at < old(oldest).value then at else old(oldest).value)
      ensures newest == Some(if old(newest).None? || at > old(newest).value then at else old(newest).value)
    {
      if oldest.None? || at < oldest.value { oldest := Some(at); }
      if newest.None? || at > newest.value { newest := Some(at); }
    }

    method Push(row: Reading)
      requires Valid()
      modifies raw, minute, hourly, daily
      ensures Valid() && forall tier: Tier :: Pushed(tier) == old(Pushed(tier)) + if tier == row.tier then [row] else []
    {
      match row.tier
      case Raw => raw.Push(row);
      case Minute => minute.Push(row);
      case Hourly => hourly.Push(row);
      case Daily => daily.Push(row);
    }

    method FlushAll()
      requires Valid()
      modifies raw, minute, hourly, daily
      ensures Valid() && forall tier: Tier :: Inserted(tier) == Pushed(tier) == old(Pushed(tier))
    {
      raw.Flush();
      minute.Flush();
      hourly.Flush();
      daily.Flush();
    }

    /**
     * On success every table got exactly its tier's rows, in file order; a bad line
     * stops the load with everything in front of it handed to its writer.
     */
    method LoadReadings(lines: seq<Line>, declared: set<Tier>, deviceMap: map<string, string>)
      returns (error: Option<LoadError>)
      requires Valid() && Routed([], deviceMap) && oldest == newest == None
      modifies this, raw, minute, hourly, daily
      ensures Valid() && error == FirstProblem(lines, declared)
      ensures error.Some? ==> 0 < error.value.line <= |lines| && Routed(lines[..error.value.line - 1], deviceMap)
      ensures error.None? <==> forall i :: 0 <= i < |lines| ==> !Stops(lines[i], declared)
      ensures error.None? ==> oldest == Oldest(lines) && newest == Newest(lines)
      ensures error.None? ==> forall tier: Tier :: Inserted(tier) == TierRows(lines, tier, deviceMap)
    {
      hide BatchWriter.Pushed, BatchWriter.Valid, TierRows, Oldest, Newest, FirstProblem, Stops;
      FirstProblemExactly(lines, declared);
      NoLines(declared, deviceMap);
      assert lines[..0] == [];
      for i := 0 to |lines|
        invariant Valid() && Routed(lines[..i], deviceMap)
        invariant oldest == Oldest(lines[..i]) && newest == Newest(lines[..i]) && (newest.Some? <==> oldest.Some?)
        invariant FirstProblem(lines[..i], declared) == None
      {
        var line := lines[i];
        assert lines[..i + 1] == lines[..i] + [line];
        NextLine(lines[..i], line, declared);
        forall tier: Tier { TierRowsSnoc(lines[..i], line, tier, deviceMap); }
        var problem := Problem(line, i + 1, declared);
        if problem.Some? {
          StopsHere(lines, i, |lines|, declared);
          assert lines[..|lines|] == lines;
          return problem;
        }
        if line.Row? {
          WidenSpan(line.reading.time);
          Push(Mapped(line.reading, deviceMap));
        }
      }
      assert lines[..|lines|] == lines;
      FlushAll();
      error := None;
    }
  }

  lemma NoLines(declared: set<Tier>, deviceMap: map<string, string>)
    ensures Oldest([]) == Newest([]) == None && FirstProblem([], declared) == None
    ensures forall tier: Tier :: TierRows([], tier, deviceMap) == []
  {
  }

  /** One more line: the span widens by its reading, and its problem counts when nothing in front has one. */
  lemma NextLine(lines: seq<Line>, line: Line, declared: set<Tier>)
    ensures var before, now := Oldest(lines), Oldest(lines + [line]);
            now == if line.Row? && (before.None? || line.reading.time < before.value) then Some(line.reading.time)
                   else before
    ensures var before, now := Newest(lines), Newest(lines + [line]);
            now == if line.Row? && (before.None? || line.reading.time > before.value) then Some(line.reading.time)
                   else before
    ensures var before := FirstProblem(lines, declared);
            FirstProblem(lines + [line], declared)
            == if before.Some? then before else Problem(line, |lines| + 1, declared)
  {
    assert (lines + [line])[..|lines|] == lines;
  }
}
