/**
 * The restore differ of scripts/db-parity.ts: whether an aggregate came back from a
 * dump exactly as it went in.
 */
module RestoreParity {
  import opened Wrappers
  import opened Reals
  import opened Database

  datatype RollupRow = RollupRow(
    bucket: string, deviceId: int, metricId: int, avg: Option<real>, max: Option<real>, min: Option<real>)

  datatype Field = Avg | Max | Min

  datatype Problem =
    | RowCount(before: nat, after: nat)
    | Missing(key: string)
    | Differs(key: string, field: Field)
    | Appeared(key: string)

  // ----- the key ----------------------------------------------------------------------

  function Digit(d: nat): char
    requires d < 10
  {
    ('0' as int + d) as char
  }

  function DecimalNat(n: nat): (s: string)
    ensures s != "" && forall i :: 0 <= i < |s| ==> '0' <= s[i] <= '9'
  {
    if n < 10 then [Digit(n)] else DecimalNat(n / 10) + [Digit(n % 10)]
  }

  /** A whole number as it is printed. */
  function Decimal(n: int): string { if n < 0 then "-" + DecimalNat(-n) else DecimalNat(n) }

  function RollupKey(row: RollupRow): string { row.bucket + "|" + Decimal(row.deviceId) + "|" + Decimal(row.metricId) }

  lemma {:induction false} DecimalNatInjective(m: nat, n: nat)
    requires DecimalNat(m) == DecimalNat(n)
    ensures m == n
  {
    var s, t := DecimalNat(m), DecimalNat(n);
    assert s[|s| - 1] == Digit(m % 10) && t[|t| - 1] == Digit(n % 10);
    if m >= 10 && n >= 10 {
      assert s[..|s| - 1] == DecimalNat(m / 10) && t[..|t| - 1] == DecimalNat(n / 10);
      DecimalNatInjective(m / 10, n / 10);
    } else {
      ShortIsSmall(m);
      ShortIsSmall(n);
    }
  }

  lemma ShortIsSmall(n: nat)
    ensures |DecimalNat(n)| == 1 <==> n < 10
  {
    if n >= 10 { assert |DecimalNat(n / 10)| >= 1; }
  }

  lemma DecimalInjective(m: int, n: int)
    requires Decimal(m) == Decimal(n)
    ensures m == n
  {
    assert m < 0 ==> Decimal(m)[0] == '-' && Decimal(m)[1..] == DecimalNat(-m);
    assert n < 0 ==> Decimal(n)[0] == '-' && Decimal(n)[1..] == DecimalNat(-n);
    assert m >= 0 ==> '0' <= Decimal(m)[0] <= '9';
    assert n >= 0 ==> '0' <= Decimal(n)[0] <= '9';
    if m < 0 { DecimalNatInjective(-m, -n); } else { DecimalNatInjective(m, n); }
  }

  lemma NoBar(n: int)
    ensures Decimal(n) != "" && '|' !in Decimal(n)
  {
  }

  /** The last bar separates: nothing behind it holds one. */
  lemma SplitAtLast(a: string, b: string, x: string, y: string)
    requires '|' !in x && '|' !in y && a + "|" + x == b + "|" + y
    ensures a == b && x == y
  {
    var s := a + "|" + x;
    assert s[|a|] == '|' && s[|b|] == '|';
    assert forall i :: |a| < i < |s| ==> s[i] == x[i - |a| - 1] && x[i - |a| - 1] in x;
    assert forall i :: |b| < i < |s| ==> s[i] == y[i - |b| - 1] && y[i - |b| - 1] in y;
    assert |a| == |b|;
    assert s[..|a|] == a && s[..|a|] == b;
    assert s[|a| + 1..] == x && s[|a| + 1..] == y;
  }

  /** The key identifies bucket, device and metric, even for a bucket text that holds a bar. */
  lemma RollupKeyIsInjective(x: RollupRow, y: RollupRow)
    ensures RollupKey(x) == RollupKey(y)
        <==> x.bucket == y.bucket && x.deviceId == y.deviceId && x.metricId == y.metricId
  {
    if RollupKey(x) == RollupKey(y) {
      NoBar(x.metricId);
      NoBar(y.metricId);
      NoBar(x.deviceId);
      NoBar(y.deviceId);
      SplitAtLast(x.bucket + "|" + Decimal(x.deviceId), y.bucket + "|" + Decimal(y.deviceId),
                  Decimal(x.metricId), Decimal(y.metricId));
      SplitAtLast(x.bucket, y.bucket, Decimal(x.deviceId), Decimal(y.deviceId));
      DecimalInjective(x.deviceId, y.deviceId);
      DecimalInjective(x.metricId, y.metricId);
    }
  }

  // ----- values --------------------------------------------------------------------------

  const EPSILON := 0.000000001

  predicate SameNumber(a: Option<real>, b: Option<real>) {
    if a.None? || b.None? then a == b else Abs(a.value - b.value) <= EPSILON
  }

  function FieldOf(row: RollupRow, field: Field): Option<real> {
    match field
    case Avg => row.avg
    case Max => row.max
    case Min => row.min
  }

  const FIELDS: seq<Field> := [Avg, Max, Min]

  /** Both null, or two numbers no more than one in a thousand million apart. */
  predicate Same(a: Option<real>, b: Option<real>) {
    match (a, b)
    case (None, None) => true
    case (Some(x), Some(y)) => -0.000000001 <= x - y <= 0.000000001
    case _ => false
  }

  predicate Match(x: RollupRow, y: RollupRow) { Same(x.avg, y.avg) && Same(x.max, y.max) && Same(x.min, y.min) }

  // ----- the differ ------------------------------------------------------------------------

  /** The last row under each key. */
  function ByKey(rows: seq<RollupRow>): map<string, RollupRow> {
    if rows == [] then map[] else ByKey(rows[..|rows| - 1])[RollupKey(rows[|rows| - 1]) := rows[|rows| - 1]]
  }

  function KeysOf(rows: seq<RollupRow>): (keys: seq<string>)
    ensures |keys| == |rows| && forall i :: 0 <= i < |rows| ==> keys[i] == RollupKey(rows[i])
  {
    seq(|rows|, i requires 0 <= i < |rows| => RollupKey(rows[i]))
  }

  /** What the rows checked so far have in common with the restored side. */
  ghost predicate AllPaired(before: seq<RollupRow>, restored: map<string, RollupRow>) {
    Distinct(KeysOf(before))
    && forall i :: 0 <= i < |before| ==>
        RollupKey(before[i]) in restored && Match(before[i], restored[RollupKey(before[i])])
  }

  /** The field does not match. */
  predicate Off(x: RollupRow, y: RollupRow, field: Field) {
    match field
    case Avg => !Same(x.avg, y.avg)
    case Max => !Same(x.max, y.max)
    case Min => !Same(x.min, y.min)
  }

  method CompareFields(key: string, x: RollupRow, y: RollupRow) returns (problems: seq<Problem>)
    ensures problems == [] <==> Match(x, y)
    ensures forall p :: p in problems <==> p.Differs? && p.key == key && Off(x, y, p.field)
  {
    problems := [];
    for i := 0 to |FIELDS|
      invariant forall p ::
                  p in problems <==> p.Differs? && p.key == key && p.field in FIELDS[..i] && Off(x, y, p.field)
    {
      assert FIELDS[..i + 1] == FIELDS[..i] + [FIELDS[i]];
      if !SameNumber(FieldOf(x, FIELDS[i]), FieldOf(y, FIELDS[i])) { problems := problems + [Differs(key, FIELDS[i])]; }
    }
    assert FIELDS[0] == Avg && FIELDS[1] == Max && FIELDS[2] == Min;
    assert FIELDS[..|FIELDS|] == FIELDS;
    forall field: Field ensures field in FIELDS {
      match field { case Avg => case Max => case Min => }
    }
    assert forall field: Field :: Differs(key, field) in problems <==> Off(x, y, field);
    assert problems != [] ==> problems[0] in problems;
    if !Match(x, y) {
      assert Differs(key, Avg) in problems || Differs(key, Max) in problems || Differs(key, Min) in problems;
    }
  }

  // ----- what the differ says ----------------------------------------------------------------

  /** The key comes up first in row `i`. */
  predicate ComesUp(rows: seq<RollupRow>, i: int, key: string) {
    0 <= i < |rows| && RollupKey(rows[i]) == key && forall j :: 0 <= j < i ==> RollupKey(rows[j]) != key
  }

  /** The key comes up again in row `i`. */
  predicate ComesUpAgain(rows: seq<RollupRow>, i: int, key: string) {
    0 <= i < |rows| && RollupKey(rows[i]) == key && exists j :: 0 <= j < i && RollupKey(rows[j]) == key
  }

  /** What is to be said about the rows that were there before. */
  ghost predicate Wrong(before: seq<RollupRow>, restored: map<string, RollupRow>, p: Problem) {
    match p
    case Missing(key) =>
      (key !in restored && exists i :: ComesUp(before, i, key)) || exists i :: ComesUpAgain(before, i, key)
    case Differs(key, field) =>
      exists i :: key in restored && ComesUp(before, i, key) && Off(before[i], restored[key], field)
    case _ => false
  }

  /** The whole of parity, as the differ goes about deciding it. */
  ghost predicate Claimed(before: seq<RollupRow>, after: seq<RollupRow>) {
    |before| == |after| && AllPaired(before, ByKey(after)) && ByKey(after).Keys == set k | k in KeysOf(before)
  }

  method CompareRollup(before: seq<RollupRow>, after: seq<RollupRow>) returns (problems: seq<Problem>)
    ensures problems == [] <==> Parity(before, after)
    ensures forall p :: p in problems <==>
              || Wrong(before, ByKey(after), p)
              || (p == RowCount(|before|, |after|) && |before| != |after|)
              || (p.Appeared? && p.key in KeysOf(after) && p.key !in KeysOf(before))
  {
    hide ByKey, KeysOf, Match, AllPaired, RollupKey, Wrong, Off;
    problems := [];
    if |before| != |after| { problems := problems + [RowCount(|before|, |after|)]; }
    var afterByKey := Index(after);
    ghost var claimed: set<string> := {};
    NothingPaired(before, ByKey(after));
    NothingWrong(before, ByKey(after));
    for i := 0 to |before|
      invariant problems == [] <==> |before| == |after| && AllPaired(before[..i], ByKey(after))
      invariant claimed == set k | k in KeysOf(before[..i])
      invariant afterByKey == ByKey(after) - claimed
      invariant forall p :: p in problems <==>
                  Wrong(before[..i], ByKey(after), p) || (p == RowCount(|before|, |after|) && |before| != |after|)
    {
      ghost var found := problems;
      var row, key := before[i], RollupKey(before[i]);
      PairedSnoc(before, i, ByKey(after));
      if key !in afterByKey {
        problems := problems + [Missing(key)];
      } else {
        var differences := CompareFields(key, row, afterByKey[key]);
        problems := problems + differences;
        afterByKey := afterByKey - {key};
      }
      WrongSnoc(before, i, ByKey(after), claimed);
      claimed := claimed + {key};
    }
    assert before[..|before|] == before;
    problems := Leftovers(problems, afterByKey);
    KeysAreByKey(after);
    AllClaimed(before, after, claimed);
    hide Claimed, Parity;
    DifferDecidesParity(before, after);
  }

  lemma NothingPaired(before: seq<RollupRow>, restored: map<string, RollupRow>)
    ensures AllPaired(before[..0], restored) && KeysOf(before[..0]) == []
  {
  }

  lemma NothingWrong(before: seq<RollupRow>, restored: map<string, RollupRow>)
    ensures forall p :: !Wrong(before[..0], restored, p)
  {
  }

  lemma KeyComesUp(rows: seq<RollupRow>, key: string)
    ensures key in KeysOf(rows) <==> exists j :: 0 <= j < |rows| && RollupKey(rows[j]) == key
  {
    hide RollupKey;
    var keys := KeysOf(rows);
    assert forall j :: 0 <= j < |rows| ==> keys[j] == RollupKey(rows[j]);
    hide KeysOf;
    if key in keys { var j :| 0 <= j < |rows| && keys[j] == key; }
  }

  /** Where keys come up among one row more. */
  lemma ComesUpSnoc(before: seq<RollupRow>, n: nat, i: int, key: string)
    requires n < |before|
    ensures ComesUp(before[..n + 1], i, key)
       <==> ComesUp(before[..n], i, key)
            || (i == n && RollupKey(before[n]) == key && key !in KeysOf(before[..n]))
    ensures ComesUpAgain(before[..n + 1], i, key)
       <==> ComesUpAgain(before[..n], i, key)
            || (i == n && RollupKey(before[n]) == key && key in KeysOf(before[..n]))
  {
    hide RollupKey, KeysOf;
    var now, earlier := before[..n + 1], before[..n];
    KeyComesUp(earlier, key);
    assert now == earlier + [before[n]];
    assert forall j :: 0 <= j < n ==> now[j] == earlier[j];
  }

  lemma MissingSnoc(before: seq<RollupRow>, n: nat, restored: map<string, RollupRow>, key: string)
    requires n < |before|
    ensures Wrong(before[..n + 1], restored, Missing(key))
       <==> Wrong(before[..n], restored, Missing(key))
            || (RollupKey(before[n]) == key && (key !in restored || key in KeysOf(before[..n])))
  {
    hide RollupKey, KeysOf, ComesUp, ComesUpAgain;
    var now, earlier := before[..n + 1], before[..n];
    ComesUpSnoc(before, n, n, key);
    if i :| ComesUp(now, i, key) { ComesUpSnoc(before, n, i, key); }
    if i :| ComesUpAgain(now, i, key) { ComesUpSnoc(before, n, i, key); }
    if i :| ComesUp(earlier, i, key) { ComesUpSnoc(before, n, i, key); }
    if i :| ComesUpAgain(earlier, i, key) { ComesUpSnoc(before, n, i, key); }
  }

  lemma DiffersSnoc(before: seq<RollupRow>, n: nat, restored: map<string, RollupRow>, key: string, field: Field)
    requires n < |before|
    ensures Wrong(before[..n + 1], restored, Differs(key, field))
       <==> Wrong(before[..n], restored, Differs(key, field))
            || (RollupKey(before[n]) == key && key in restored && key !in KeysOf(before[..n])
                && Off(before[n], restored[key], field))
  {
    hide RollupKey, KeysOf, Off;
    ComesUpSnoc(before, n, n, key);
    forall i: int
      ensures ComesUp(before[..n + 1], i, key)
         <==> ComesUp(before[..n], i, key)
              || (i == n && RollupKey(before[n]) == key && key !in KeysOf(before[..n]))
      ensures ComesUpAgain(before[..n + 1], i, key)
         <==> ComesUpAgain(before[..n], i, key)
              || (i == n && RollupKey(before[n]) == key && key in KeysOf(before[..n]))
    {
      ComesUpSnoc(before, n, i, key);
    }
    assert forall i :: 0 <= i < n ==> before[..n + 1][i] == before[..n][i];
    if RollupKey(before[n]) == key && key !in KeysOf(before[..n]) { assert ComesUp(before[..n + 1], n, key); }
    hide ComesUp;
  }

  /** One row more: missing when its key is not there or has come up, and else compared field by field. */
  lemma WrongSnoc(before: seq<RollupRow>, n: nat, restored: map<string, RollupRow>, claimed: set<string>)
    requires n < |before| && claimed == set k | k in KeysOf(before[..n])
    ensures var key := RollupKey(before[n]);
            forall p :: Wrong(before[..n + 1], restored, p) <==>
              || Wrong(before[..n], restored, p)
              || (p == Missing(key) && (key !in restored || key in claimed))
              || (p.Differs? && p.key == key && key in restored && key !in claimed
                  && Off(before[n], restored[key], p.field))
  {
    hide RollupKey, Off, KeysOf;
    var key := RollupKey(before[n]);
    forall p ensures Wrong(before[..n + 1], restored, p) <==>
              || Wrong(before[..n], restored, p)
              || (p == Missing(key) && (key !in restored || key in claimed))
              || (p.Differs? && p.key == key && key in restored && key !in claimed
                  && Off(before[n], restored[key], p.field)) {
      match p
      case Missing(k) => MissingSnoc(before, n, restored, k);
      case Differs(k, field) => DiffersSnoc(before, n, restored, k, field);
      case _ =>
    }
  }

  lemma AllClaimed(before: seq<RollupRow>, after: seq<RollupRow>, claimed: set<string>)
    requires claimed == set k | k in KeysOf(before)
    ensures |before| == |after| && AllPaired(before, ByKey(after)) && ByKey(after) - claimed == map[]
        <==> Claimed(before, after)
  {
    hide ByKey, AllPaired, KeysOf;
    if AllPaired(before, ByKey(after)) { PairedAreThere(before, ByKey(after), claimed); }
    NothingLeft(ByKey(after), claimed);
  }

  lemma PairedAreThere(before: seq<RollupRow>, restored: map<string, RollupRow>, claimed: set<string>)
    requires AllPaired(before, restored) && claimed == set k | k in KeysOf(before)
    ensures claimed <= restored.Keys
  {
    hide RollupKey, Match;
    forall k | k in claimed ensures k in restored.Keys {
      var i :| 0 <= i < |KeysOf(before)| && KeysOf(before)[i] == k;
      assert RollupKey(before[i]) in restored;
    }
  }

  lemma NothingLeft(m: map<string, RollupRow>, claimed: set<string>)
    ensures m - claimed == map[] <==> m.Keys <= claimed
  {
    var left := m - claimed;
    assert left.Keys == m.Keys - claimed;
    if left == map[] {
      assert left.Keys == {};
      forall k | k in m.Keys ensures k in claimed { assert k !in left.Keys; }
    }
    if m.Keys <= claimed { assert left.Keys == {}; }
  }

  method Index(rows: seq<RollupRow>) returns (byKey: map<string, RollupRow>)
    ensures byKey == ByKey(rows)
  {
    byKey := map[];
    for i := 0 to |rows|
      invariant byKey == ByKey(rows[..i])
    {
      assert rows[..i + 1][..i] == rows[..i];
      byKey := byKey[RollupKey(rows[i]) := rows[i]];
    }
    assert rows[..|rows|] == rows;
  }

  /** One problem for every key that nothing has claimed. */
  method Leftovers(found: seq<Problem>, unclaimed: map<string, RollupRow>) returns (problems: seq<Problem>)
    ensures problems == [] <==> found == [] && unclaimed == map[]
    ensures forall p :: p in problems <==> p in found || (p.Appeared? && p.key in unclaimed)
  {
    problems := found;
    var left := unclaimed.Keys;
    while left != {}
      invariant left <= unclaimed.Keys
      invariant forall p :: p in problems <==> p in found || (p.Appeared? && p.key in unclaimed.Keys - left)
      invariant problems == [] <==> found == [] && left == unclaimed.Keys
      decreases |left|
    {
      var key :| key in left;
      problems := problems + [Appeared(key)];
      left := left - {key};
    }
  }

  lemma KeysSplit(rows: seq<RollupRow>)
    requires rows != []
    ensures KeysOf(rows) == KeysOf(rows[..|rows| - 1]) + [RollupKey(rows[|rows| - 1])]
  {
    hide RollupKey;
    var fewer := rows[..|rows| - 1];
    assert forall i :: 0 <= i < |fewer| ==> fewer[i] == rows[i];
    hide KeysOf;
    assert |KeysOf(rows)| == |KeysOf(fewer)| + 1;
  }

  lemma KeysSnoc(before: seq<RollupRow>, i: nat)
    requires i < |before|
    ensures KeysOf(before[..i + 1]) == KeysOf(before[..i]) + [RollupKey(before[i])]
  {
    hide KeysOf, RollupKey;
    assert before[..i + 1][..i] == before[..i];
    KeysSplit(before[..i + 1]);
  }

  /** One more row: paired when its key has not come up before and its values match. */
  lemma PairedSnoc(before: seq<RollupRow>, i: nat, restored: map<string, RollupRow>)
    requires i < |before|
    ensures var key := RollupKey(before[i]);
            && KeysOf(before[..i + 1]) == KeysOf(before[..i]) + [key]
            && (AllPaired(before[..i + 1], restored)
                <==> && AllPaired(before[..i], restored) && key !in KeysOf(before[..i])
                     && key in restored && Match(before[i], restored[key]))
  {
    hide KeysOf, RollupKey, Match;
    KeysSnoc(before, i);
    var now, earlier := before[..i + 1], before[..i];
    assert forall j :: 0 <= j < i ==> now[j] == earlier[j];
    assert now[i] == before[i];
    DistinctSnoc(KeysOf(earlier), RollupKey(before[i]));
    if AllPaired(now, restored) {
      forall j | 0 <= j < |earlier| ensures RollupKey(earlier[j]) in restored
          && Match(earlier[j], restored[RollupKey(earlier[j])]) {
        assert now[j] == earlier[j];
      }
    }
  }

  lemma DistinctSnoc(keys: seq<string>, key: string)
    ensures Distinct(keys + [key]) <==> Distinct(keys) && key !in keys
  {
    var all := keys + [key];
    assert forall j :: 0 <= j < |keys| ==> all[j] == keys[j];
    assert all[|keys|] == key;
    if Distinct(all) {
      forall i, j | 0 <= i < j < |keys| ensures keys[i] != keys[j] { assert all[i] != all[j]; }
      forall i | 0 <= i < |keys| ensures keys[i] != key { assert all[i] != all[|keys|]; }
    }
  }

  // ----- what it decides ---------------------------------------------------------------------

  /**
   * Keys unique on both sides, the same keys, and every row matched by the row of
   * its key.
   */
  ghost predicate Parity(before: seq<RollupRow>, after: seq<RollupRow>) {
    && Distinct(KeysOf(before)) && Distinct(KeysOf(after))
    && (forall k :: k in KeysOf(before) <==> k in KeysOf(after))
    && forall i, j :: 0 <= i < |before| && 0 <= j < |after| && RollupKey(before[i]) == RollupKey(after[j])
        ==> Match(before[i], after[j])
  }

  lemma {:induction false} KeysAreByKey(rows: seq<RollupRow>)
    ensures ByKey(rows).Keys == set k | k in KeysOf(rows)
  {
    if rows != [] {
      hide RollupKey, KeysOf;
      KeysAreByKey(rows[..|rows| - 1]);
      KeysSplit(rows);
    }
  }

  lemma LastKeyIsNew(rows: seq<RollupRow>, j: nat)
    requires Distinct(KeysOf(rows)) && j < |rows| - 1
    ensures RollupKey(rows[j]) != RollupKey(rows[|rows| - 1]) && Distinct(KeysOf(rows[..|rows| - 1]))
  {
    hide RollupKey, KeysOf;
    var before := rows[..|rows| - 1];
    KeysSplit(rows);
    DistinctSnoc(KeysOf(before), RollupKey(rows[|rows| - 1]));
    assert before[j] == rows[j];
    assert KeysOf(before)[j] in KeysOf(before);
  }

  /** Of several rows with one key it is the last that a lookup finds. */
  lemma {:induction false} LastRowWins(rows: seq<RollupRow>, j: nat)
    requires j < |rows| && forall k :: j < k < |rows| ==> RollupKey(rows[k]) != RollupKey(rows[j])
    ensures RollupKey(rows[j]) in ByKey(rows) && ByKey(rows)[RollupKey(rows[j])] == rows[j]
  {
    hide RollupKey;
    if j < |rows| - 1 {
      var before := rows[..|rows| - 1];
      assert forall k :: 0 <= k < |before| ==> before[k] == rows[k];
      LastRowWins(before, j);
    }
  }

  /** With unique keys, a key finds its own row. */
  lemma {:induction false} ByKeyFinds(rows: seq<RollupRow>, j: nat)
    requires Distinct(KeysOf(rows)) && j < |rows|
    ensures RollupKey(rows[j]) in ByKey(rows) && ByKey(rows)[RollupKey(rows[j])] == rows[j]
  {
    hide RollupKey, KeysOf, Distinct;
    if j < |rows| - 1 {
      LastKeyIsNew(rows, j);
      ByKeyFinds(rows[..|rows| - 1], j);
    }
  }

  lemma {:induction false} DistinctBySize(keys: seq<string>)
    ensures |set k | k in keys| <= |keys|
    ensures |set k | k in keys| == |keys| <==> Distinct(keys)
  {
    if keys != [] {
      var before, last := keys[..|keys| - 1], keys[|keys| - 1];
      assert keys == before + [last];
      DistinctBySize(before);
      DistinctSnoc(before, last);
      assert (set k | k in keys) == (set k | k in before) + {last};
      if last in before { assert (set k | k in keys) == set k | k in before; }
    }
  }

  lemma ParityIsClaimed(before: seq<RollupRow>, after: seq<RollupRow>)
    requires Parity(before, after)
    ensures Claimed(before, after)
  {
    hide RollupKey, Match;
    KeysAreByKey(after);
    DistinctBySize(KeysOf(before));
    DistinctBySize(KeysOf(after));
    assert (set k | k in KeysOf(before)) == set k | k in KeysOf(after);
    forall i | 0 <= i < |before|
      ensures RollupKey(before[i]) in ByKey(after) && Match(before[i], ByKey(after)[RollupKey(before[i])])
    {
      assert KeysOf(before)[i] in KeysOf(before);
      assert RollupKey(before[i]) in KeysOf(after);
      var j :| 0 <= j < |KeysOf(after)| && KeysOf(after)[j] == RollupKey(before[i]);
      ByKeyFinds(after, j);
    }
  }

  lemma ClaimedIsParity(before: seq<RollupRow>, after: seq<RollupRow>)
    requires Claimed(before, after)
    ensures Parity(before, after)
  {
    hide RollupKey, Match;
    KeysAreByKey(after);
    DistinctBySize(KeysOf(before));
    DistinctBySize(KeysOf(after));
    var one, other := set k | k in KeysOf(before), set k | k in KeysOf(after);
    assert one == other;
    forall k ensures k in KeysOf(before) <==> k in KeysOf(after) { assert k in one <==> k in other; }
    forall i, j | 0 <= i < |before| && 0 <= j < |after| && RollupKey(before[i]) == RollupKey(after[j])
      ensures Match(before[i], after[j])
    {
      ByKeyFinds(after, j);
      assert Match(before[i], ByKey(after)[RollupKey(before[i])]);
    }
  }

  /**
   * No problem is reported if and only if the restore is a bijection on keys with
   * matching values. That the keys are unique is not assumed of either side: the
   * deletions and the row count force it.
   */
  lemma DifferDecidesParity(before: seq<RollupRow>, after: seq<RollupRow>)
    ensures Claimed(before, after) <==> Parity(before, after)
  {
    hide Claimed, Parity;
    if Claimed(before, after) { ClaimedIsParity(before, after); }
    if Parity(before, after) { ParityIsClaimed(before, after); }
  }
}
