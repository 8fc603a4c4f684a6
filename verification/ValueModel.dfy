/**
 * The seeded value model of scripts/fixture-1-2-0.ts, stated twice there: as
 * arithmetic (`valueAt`) and as a SQL expression (`sqlValueExpr`). Sine and pi are
 * whatever function and number they are.
 */
module ValueModel {
  import opened Wrappers
  import opened Reals

  const MINUTES_PER_DAY := 1440

  type NonZero = x: real | x != 0.0 witness 1.0

  datatype Shape =
    | PvPower(peakW: real)
    | SignedPower(amplitudeW: real)
    | Soc(minPct: real, maxPct: real)
    | Counter(ratePerDay: real, offset: real, dailyReset: bool, restartAtMinute: Option<int>)
    | Level(base: real, amplitude: real, periodMinutes: real)
    | Status(value: real)

  /** A period to divide by. */
  predicate HasPeriod(shape: Shape) { shape.Level? ==> shape.periodMinutes != 0.0 }

  // ----- the shapes of a profile -----------------------------------------------------

  const RESTART_METRIC := "total_energy"
  const LIFETIME_OFFSET_KWH := 45_000.0

  function Lower(c: char): char { if 'A' <= c <= 'Z' then (c as int + 32) as char else c }

  function LowerAll(s: string): string { if s == "" then "" else [Lower(s[0])] + LowerAll(s[1..]) }

  predicate IsWord(c: char) { 'a' <= c <= 'z' || 'A' <= c <= 'Z' || '0' <= c <= '9' || c == '_' }

  predicate Contains(s: string, part: string) {
    part <= s || (s != "" && Contains(s[1..], part))
  }

  /** `part` with no word character behind it. */
  predicate ContainsEnding(s: string, part: string) {
    (part <= s && (|s| == |part| || !IsWord(s[|part|]))) || (s != "" && ContainsEnding(s[1..], part))
  }

  predicate IsDailyCounter(key: string) {
    var k := LowerAll(key);
    "day_" <= k || Contains(k, "_day_") || Contains(k, "daily") || ContainsEnding(k, ".day")
  }

  predicate IsSignedFlow(key: string) {
    Contains(key, ".ct.") || Contains(key, "battery.power") || Contains(key, "ac.total_power")
  }

  datatype Metric = Metric(key: string, unit: Option<string>)

  function ShapeFor(metric: Metric, index: nat, restartAtMinute: int): Shape {
    var spread := 1.0 + (index % 5) as real / 10.0;
    match metric.unit
    case None => Status(2.0)
    case Some(unit) =>
      if unit == "kWh" then
        Counter(30.0 * spread, if IsDailyCounter(metric.key) then 0.0 else LIFETIME_OFFSET_KWH * spread,
                IsDailyCounter(metric.key), if metric.key == RESTART_METRIC then Some(restartAtMinute) else None)
      else if unit == "W" then
        if IsSignedFlow(metric.key) then SignedPower(2500.0 * spread) else PvPower(4000.0 * spread)
      else if unit == "%" then
        if Contains(LowerAll(metric.key), "soc") then Soc(20.0, 95.0) else Level(96.0, 2.0, 180.0)
      else if unit == "V" then Level(233.0, 4.0 * spread, 97.0)
      else if unit == "A" then Level(11.0, 3.0 * spread, 61.0)
      else if unit == "\U{00B0}C" then Level(31.0, 5.0 * spread, 720.0)
      else Level(10.0, 2.0, 120.0)
  }

  /** The middle of the middle day. */
  function RestartMinute(spanDays: nat): int { spanDays / 2 * MINUTES_PER_DAY + 720 }

  function AssignShapes(metrics: seq<Metric>, spanDays: nat): (shapes: seq<Shape>)
    ensures |shapes| == |metrics|
    ensures forall i :: 0 <= i < |metrics| ==> shapes[i] == ShapeFor(metrics[i], i, RestartMinute(spanDays))
  {
    seq(|metrics|, i requires 0 <= i < |metrics| => ShapeFor(metrics[i], i, RestartMinute(spanDays)))
  }

  // ----- the arithmetic --------------------------------------------------------------

  datatype Trig = Trig(sin: real -> real, pi: real)

  /** The remainder of truncated division, as both languages have it. */
  function Rem(a: int, b: int): int
    requires b > 0
  {
    if a >= 0 then a % b else -(-a % b)
  }

  function Trunc(a: int, b: int): int
    requires b > 0
  {
    if a >= 0 then a / b else -(-a / b)
  }

  /** The remainder of a non-negative number by 24. */
  function RemDay(x: real): real { x - 24.0 * (x / 24.0).Floor as real }

  function MinuteOfDay(m: int): int { Rem(Rem(m, MINUTES_PER_DAY) + MINUTES_PER_DAY, MINUTES_PER_DAY) }

  function SocAt(minPct: real, maxPct: real, hour: real): real {
    var span := maxPct - minPct;
    if 8.0 <= hour < 16.0 then minPct + span * (hour - 8.0) / 8.0
    else maxPct - span * (RemDay(hour - 16.0 + 24.0) / 16.0)
  }

  /** The counter as if nothing had ever been lost. */
  function Cumulative(offset: real, rate: real, m: int): real { offset + rate * m as real / 1440.0 }

  function CounterAt(shape: Shape, m: int, minuteOfDay: int): real
    requires shape.Counter?
  {
    if shape.dailyReset then shape.ratePerDay * minuteOfDay as real / 1440.0
    else
      var cumulative := Cumulative(shape.offset, shape.ratePerDay, m);
      match shape.restartAtMinute
      case None => cumulative
      case Some(restart) =>
        if m < restart then cumulative else cumulative - Cumulative(shape.offset, shape.ratePerDay, restart)
  }

  function SunAngle(hour: real, t: Trig): real { t.pi * (hour - 6.0) / 12.0 }

  function TurnAngle(x: real, period: NonZero, t: Trig): real { 2.0 * t.pi * x / period }

  /** The night is the clamp: sine is negative outside 06:00 to 18:00. */
  function Arc(m: int, t: Trig): real { t.sin(SunAngle(MinuteOfDay(m) as real / 60.0, t)) }

  function DayFactor(m: int, t: Trig): real { 0.7 + 0.3 * t.sin((m / MINUTES_PER_DAY) as real) }

  function ValueAt(shape: Shape, m: int, t: Trig): real
    requires HasPeriod(shape)
  {
    var minuteOfDay := MinuteOfDay(m);
    var hour := minuteOfDay as real / 60.0;
    match shape
    case PvPower(peakW) => peakW * MaxReal(0.0, Arc(m, t)) * DayFactor(m, t)
    case SignedPower(amplitudeW) => amplitudeW * t.sin(TurnAngle(minuteOfDay as real, 1440.0, t))
    case Soc(minPct, maxPct) => SocAt(minPct, maxPct, hour)
    case Counter(_, _, _, _) => CounterAt(shape, m, minuteOfDay)
    case Level(base, amplitude, periodMinutes) => base + amplitude * t.sin(TurnAngle(m as real, periodMinutes, t))
    case Status(value) => value
  }

  // ----- the SQL expression -----------------------------------------------------------

  /** Over the bigint column `s.mi`. */
  datatype IntExpr = Mi | ModDay(e: IntExpr) | DivDay(e: IntExpr)

  /** Over the float8 column `s.m`; `FromInt` is the cast. */
  datatype Expr =
    | M
    | Lit(value: real)
    | FromInt(i: IntExpr)
    | Pi
    | Sin(e: Expr)
    | Add(a: Expr, b: Expr)
    | Sub(a: Expr, b: Expr)
    | Mul(a: Expr, b: Expr)
    | Div(a: Expr, divisor: NonZero)
    | Greatest(a: Expr, b: Expr)
    | Case(cond: Cond, thn: Expr, els: Expr)

  datatype Cond =
    | AtLeast(a: Expr, bound: real)
    | Below(a: Expr, bound: real)
    | Both(p: Cond, q: Cond)
    | AtLeastI(i: IntExpr, n: int)

  function EvalInt(e: IntExpr, m: int): int {
    match e
    case Mi => m
    case ModDay(a) => Rem(EvalInt(a, m), MINUTES_PER_DAY)
    case DivDay(a) => Trunc(EvalInt(a, m), MINUTES_PER_DAY)
  }

  function Eval(e: Expr, m: int, t: Trig): real {
    match e
    case M => m as real
    case Lit(value) => value
    case FromInt(i) => EvalInt(i, m) as real
    case Pi => t.pi
    case Sin(a) => t.sin(Eval(a, m, t))
    case Add(a, b) => Eval(a, m, t) + Eval(b, m, t)
    case Sub(a, b) => Eval(a, m, t) - Eval(b, m, t)
    case Mul(a, b) => Eval(a, m, t) * Eval(b, m, t)
    case Div(a, divisor) => Eval(a, m, t) / divisor
    case Greatest(a, b) => MaxReal(Eval(a, m, t), Eval(b, m, t))
    case Case(c, a, b) => if EvalCond(c, m, t) then Eval(a, m, t) else Eval(b, m, t)
  }

  predicate EvalCond(c: Cond, m: int, t: Trig) {
    match c
    case AtLeast(a, bound) => Eval(a, m, t) >= bound
    case Below(a, bound) => Eval(a, m, t) < bound
    case Both(p, q) => EvalCond(p, m, t) && EvalCond(q, m, t)
    case AtLeastI(i, n) => EvalInt(i, m) >= n
  }

  function SqlMinuteOfDay(): Expr { FromInt(ModDay(Mi)) }

  function SqlHour(): Expr { Div(SqlMinuteOfDay(), 60.0) }

  function SqlArc(): Expr { Sin(Div(Mul(Pi, Sub(SqlHour(), Lit(6.0))), 12.0)) }

  function SqlValueExpr(shape: Shape): Expr
    requires HasPeriod(shape)
  {
    match shape
    case PvPower(peakW) =>
      Mul(Greatest(Lit(0.0), Mul(Lit(peakW), SqlArc())),
          Add(Lit(0.7), Mul(Lit(0.3), Sin(FromInt(DivDay(Mi))))))
    case SignedPower(amplitudeW) => Mul(Lit(amplitudeW), Sin(Div(Mul(Mul(Lit(2.0), Pi), SqlMinuteOfDay()), 1440.0)))
    case Soc(minPct, maxPct) =>
      var span := maxPct - minPct;
      Case(Both(AtLeast(SqlHour(), 8.0), Below(SqlHour(), 16.0)),
           Add(Lit(minPct), Div(Mul(Lit(span), Sub(SqlHour(), Lit(8.0))), 8.0)),
           Case(Below(SqlHour(), 8.0),
                Sub(Lit(maxPct), Mul(Lit(span), Div(Add(SqlHour(), Lit(8.0)), 16.0))),
                Sub(Lit(maxPct), Mul(Lit(span), Div(Sub(SqlHour(), Lit(16.0)), 16.0)))))
    case Counter(ratePerDay, offset, dailyReset, restartAtMinute) =>
      if dailyReset then Div(Mul(Lit(ratePerDay), SqlMinuteOfDay()), 1440.0)
      else
        var cumulative := Add(Lit(offset), Div(Mul(Lit(ratePerDay), M), 1440.0));
        (match restartAtMinute
         case None => cumulative
         case Some(restart) =>
           Case(AtLeastI(Mi, restart), Sub(cumulative, Lit(Cumulative(offset, ratePerDay, restart))), cumulative))
    case Level(base, amplitude, periodMinutes) =>
      Add(Lit(base), Mul(Lit(amplitude), Sin(Div(Mul(Mul(Lit(2.0), Pi), M), periodMinutes))))
    case Status(value) => Lit(value)
  }

  // ----- they mean the same -------------------------------------------------------------

  lemma MinutesAgree(m: int)
    requires m >= 0
    ensures MinuteOfDay(m) == Rem(m, MINUTES_PER_DAY) == m % MINUTES_PER_DAY && 0 <= MinuteOfDay(m) < MINUTES_PER_DAY
    ensures Trunc(m, MINUTES_PER_DAY) == m / MINUTES_PER_DAY
  {
  }

  /** The CASE that stands for the wrap around midnight. */
  lemma WrapIsCase(hour: real)
    requires 0.0 <= hour < 24.0
    ensures hour < 8.0 ==> RemDay(hour - 16.0 + 24.0) == hour + 8.0
    ensures hour >= 16.0 ==> RemDay(hour - 16.0 + 24.0) == hour - 16.0
  {
    var x := hour - 16.0 + 24.0;
    if hour < 8.0 { assert 0.0 <= x / 24.0 < 1.0; assert (x / 24.0).Floor == 0; }
    if hour >= 16.0 { assert 1.0 <= x / 24.0 < 2.0; assert (x / 24.0).Floor == 1; }
  }

  /** Where the maximum is taken does not matter under a non-negative peak. */
  lemma PeakCommutes(peakW: real, s: real)
    requires peakW >= 0.0
    ensures MaxReal(0.0, peakW * s) == peakW * MaxReal(0.0, s)
  {
    if s > 0.0 {
      assert peakW * s >= 0.0;
    } else {
      assert peakW * s <= 0.0;
      assert peakW * 0.0 == 0.0;
    }
  }

  // One step of evaluation at a time.

  lemma Sum(a: Expr, b: Expr, m: int, t: Trig)
    ensures Eval(Add(a, b), m, t) == Eval(a, m, t) + Eval(b, m, t)
    ensures Eval(Sub(a, b), m, t) == Eval(a, m, t) - Eval(b, m, t)
  {
  }

  lemma Product(a: Expr, b: Expr, m: int, t: Trig)
    ensures Eval(Mul(a, b), m, t) == Eval(a, m, t) * Eval(b, m, t)
  {
  }

  lemma Quotient(a: Expr, divisor: NonZero, m: int, t: Trig)
    ensures Eval(Div(a, divisor), m, t) == Eval(a, m, t) / divisor
  {
  }

  lemma Larger(a: Expr, b: Expr, m: int, t: Trig)
    ensures Eval(Greatest(a, b), m, t) == MaxReal(Eval(a, m, t), Eval(b, m, t))
  {
  }

  lemma Sine(a: Expr, m: int, t: Trig)
    ensures Eval(Sin(a), m, t) == t.sin(Eval(a, m, t))
  {
  }

  lemma Choice(c: Cond, a: Expr, b: Expr, m: int, t: Trig)
    ensures Eval(Case(c, a, b), m, t) == if EvalCond(c, m, t) then Eval(a, m, t) else Eval(b, m, t)
  {
  }

  lemma Leaves(value: real, m: int, t: Trig)
    ensures Eval(Lit(value), m, t) == value && Eval(M, m, t) == m as real && Eval(Pi, m, t) == t.pi
  {
  }

  /** `Lit(x) * e`. */
  lemma Scaled(x: real, e: Expr, m: int, t: Trig)
    ensures Eval(Mul(Lit(x), e), m, t) == x * Eval(e, m, t)
  {
    Leaves(x, m, t);
    Product(Lit(x), e, m, t);
  }

  lemma SameProduct(x: real, a: real, b: real)
    requires a == b
    ensures x * a == x * b && a * x == b * x
  {
  }

  lemma ColumnsAgree(m: int, t: Trig)
    requires m >= 0
    ensures Eval(FromInt(ModDay(Mi)), m, t) == MinuteOfDay(m) as real
    ensures Eval(FromInt(DivDay(Mi)), m, t) == (m / MINUTES_PER_DAY) as real
  {
    MinutesAgree(m);
    assert EvalInt(Mi, m) == m;
    assert EvalInt(ModDay(Mi), m) == MinuteOfDay(m) && EvalInt(DivDay(Mi), m) == m / MINUTES_PER_DAY;
  }

  lemma HourAgrees(m: int, t: Trig)
    requires m >= 0
    ensures Eval(SqlMinuteOfDay(), m, t) == MinuteOfDay(m) as real
    ensures Eval(SqlHour(), m, t) == MinuteOfDay(m) as real / 60.0
    ensures 0.0 <= MinuteOfDay(m) as real / 60.0 < 24.0
  {
    hide Eval;
    MinutesAgree(m);
    ColumnsAgree(m, t);
    Quotient(SqlMinuteOfDay(), 60.0, m, t);
  }

  /** `sin(pi() * (hour - 6) / 12)` over any expression for the hour. */
  lemma ArcEvaluates(hour: Expr, m: int, t: Trig)
    ensures Eval(Sin(Div(Mul(Pi, Sub(hour, Lit(6.0))), 12.0)), m, t) == t.sin(SunAngle(Eval(hour, m, t), t))
  {
    hide Eval;
    Leaves(6.0, m, t);
    Sum(hour, Lit(6.0), m, t);
    Product(Pi, Sub(hour, Lit(6.0)), m, t);
    var angle := Div(Mul(Pi, Sub(hour, Lit(6.0))), 12.0);
    Quotient(Mul(Pi, Sub(hour, Lit(6.0))), 12.0, m, t);
    assert Eval(angle, m, t) == SunAngle(Eval(hour, m, t), t);
    Sine(angle, m, t);
  }

  lemma FactorEvaluates(day: Expr, m: int, t: Trig)
    ensures Eval(Add(Lit(0.7), Mul(Lit(0.3), Sin(day))), m, t) == 0.7 + 0.3 * t.sin(Eval(day, m, t))
  {
    hide Eval;
    Leaves(0.7, m, t);
    Sine(day, m, t);
    Scaled(0.3, Sin(day), m, t);
    Sum(Lit(0.7), Mul(Lit(0.3), Sin(day)), m, t);
  }

  /** The clamp outside the product, as the SQL has it. */
  function ClampedOutside(peakW: real, arc: real, factor: real): real { MaxReal(0.0, peakW * arc) * factor }

  lemma PeakEvaluates(peakW: real, arc: Expr, factor: Expr, m: int, t: Trig)
    ensures Eval(Mul(Greatest(Lit(0.0), Mul(Lit(peakW), arc)), factor), m, t)
         == ClampedOutside(peakW, Eval(arc, m, t), Eval(factor, m, t))
  {
    hide Eval;
    Leaves(0.0, m, t);
    Scaled(peakW, arc, m, t);
    Larger(Lit(0.0), Mul(Lit(peakW), arc), m, t);
    Product(Greatest(Lit(0.0), Mul(Lit(peakW), arc)), factor, m, t);
  }

  /** What the expression of a PV curve evaluates to, whatever the sign of the peak. */
  lemma PvEvaluates(peakW: real, m: int, t: Trig)
    requires m >= 0
    ensures Eval(SqlValueExpr(PvPower(peakW)), m, t) == ClampedOutside(peakW, Arc(m, t), DayFactor(m, t))
  {
    hide Eval, MinuteOfDay, SunAngle;
    HourAgrees(m, t);
    ColumnsAgree(m, t);
    ArcEvaluates(SqlHour(), m, t);
    FactorEvaluates(FromInt(DivDay(Mi)), m, t);
    var factor := Add(Lit(0.7), Mul(Lit(0.3), Sin(FromInt(DivDay(Mi)))));
    var arc, day := Arc(m, t), DayFactor(m, t);
    assert Eval(SqlArc(), m, t) == arc && Eval(factor, m, t) == day;
    PeakEvaluates(peakW, SqlArc(), factor, m, t);
    SqlOfPv(peakW, m, t);
  }

  lemma SqlOfPv(peakW: real, m: int, t: Trig)
    ensures Eval(SqlValueExpr(PvPower(peakW)), m, t)
         == Eval(Mul(Greatest(Lit(0.0), Mul(Lit(peakW), SqlArc())),
                     Add(Lit(0.7), Mul(Lit(0.3), Sin(FromInt(DivDay(Mi)))))), m, t)
  {
    hide Eval;
  }

  lemma PvAgrees(peakW: real, m: int, t: Trig)
    requires m >= 0 && peakW >= 0.0
    ensures Eval(SqlValueExpr(PvPower(peakW)), m, t) == ValueAt(PvPower(peakW), m, t)
  {
    hide Eval, MinuteOfDay, Arc, DayFactor;
    PvEvaluates(peakW, m, t);
    var arc := Arc(m, t);
    PeakCommutes(peakW, arc);
    var clamped, peak := MaxReal(0.0, peakW * arc), peakW * MaxReal(0.0, arc);
    SameProduct(DayFactor(m, t), clamped, peak);
  }

  /** `maxPct - span * (since / 16)`. */
  lemma FallingLeg(since: Expr, maxPct: real, span: real, m: int, t: Trig)
    ensures Eval(Sub(Lit(maxPct), Mul(Lit(span), Div(since, 16.0))), m, t) == maxPct - span * (Eval(since, m, t) / 16.0)
  {
    hide Eval;
    Leaves(maxPct, m, t);
    Quotient(since, 16.0, m, t);
    Scaled(span, Div(since, 16.0), m, t);
    Sum(Lit(maxPct), Mul(Lit(span), Div(since, 16.0)), m, t);
  }

  lemma RisingLeg(hour: Expr, minPct: real, span: real, m: int, t: Trig)
    ensures Eval(Add(Lit(minPct), Div(Mul(Lit(span), Sub(hour, Lit(8.0))), 8.0)), m, t)
         == minPct + span * (Eval(hour, m, t) - 8.0) / 8.0
  {
    hide Eval;
    Leaves(minPct, m, t);
    Leaves(8.0, m, t);
    Sum(hour, Lit(8.0), m, t);
    Scaled(span, Sub(hour, Lit(8.0)), m, t);
    Quotient(Mul(Lit(span), Sub(hour, Lit(8.0))), 8.0, m, t);
    Sum(Lit(minPct), Div(Mul(Lit(span), Sub(hour, Lit(8.0))), 8.0), m, t);
  }

  /** The wrapped hour, leg by leg. */
  lemma SocLegs(minPct: real, maxPct: real, hour: real)
    requires 0.0 <= hour < 24.0
    ensures var span := maxPct - minPct;
            SocAt(minPct, maxPct, hour)
            == if 8.0 <= hour < 16.0 then minPct + span * (hour - 8.0) / 8.0
               else if hour < 8.0 then maxPct - span * ((hour + 8.0) / 16.0)
               else maxPct - span * ((hour - 16.0) / 16.0)
  {
    WrapIsCase(hour);
    hide RemDay;
  }

  /** The CASE over any expression for the hour. */
  lemma SocEvaluates(h: Expr, minPct: real, maxPct: real, span: real, m: int, t: Trig)
    ensures var night := Sub(Lit(maxPct), Mul(Lit(span), Div(Add(h, Lit(8.0)), 16.0)));
            var evening := Sub(Lit(maxPct), Mul(Lit(span), Div(Sub(h, Lit(16.0)), 16.0)));
            var rising := Add(Lit(minPct), Div(Mul(Lit(span), Sub(h, Lit(8.0))), 8.0));
            var hour := Eval(h, m, t);
            Eval(Case(Both(AtLeast(h, 8.0), Below(h, 16.0)), rising, Case(Below(h, 8.0), night, evening)), m, t)
            == if 8.0 <= hour < 16.0 then minPct + span * (hour - 8.0) / 8.0
               else if hour < 8.0 then maxPct - span * ((hour + 8.0) / 16.0)
               else maxPct - span * ((hour - 16.0) / 16.0)
  {
    HourConds(h, m, t);
    hide Eval, EvalCond;
    RisingLeg(h, minPct, span, m, t);
    NightHours(h, m, t);
    FallingLeg(Add(h, Lit(8.0)), maxPct, span, m, t);
    FallingLeg(Sub(h, Lit(16.0)), maxPct, span, m, t);
    var night := Sub(Lit(maxPct), Mul(Lit(span), Div(Add(h, Lit(8.0)), 16.0)));
    var evening := Sub(Lit(maxPct), Mul(Lit(span), Div(Sub(h, Lit(16.0)), 16.0)));
    var rising := Add(Lit(minPct), Div(Mul(Lit(span), Sub(h, Lit(8.0))), 8.0));
    Choice(Below(h, 8.0), night, evening, m, t);
    Choice(Both(AtLeast(h, 8.0), Below(h, 16.0)), rising, Case(Below(h, 8.0), night, evening), m, t);
  }

  lemma HourConds(h: Expr, m: int, t: Trig)
    ensures EvalCond(Both(AtLeast(h, 8.0), Below(h, 16.0)), m, t) <==> 8.0 <= Eval(h, m, t) < 16.0
    ensures EvalCond(Below(h, 8.0), m, t) <==> Eval(h, m, t) < 8.0
  {
    hide Eval;
  }

  lemma NightHours(h: Expr, m: int, t: Trig)
    ensures Eval(Add(h, Lit(8.0)), m, t) == Eval(h, m, t) + 8.0
    ensures Eval(Sub(h, Lit(16.0)), m, t) == Eval(h, m, t) - 16.0
  {
    hide Eval;
    Leaves(8.0, m, t);
    Leaves(16.0, m, t);
    Sum(h, Lit(8.0), m, t);
    Sum(h, Lit(16.0), m, t);
  }

  lemma SocAgrees(minPct: real, maxPct: real, m: int, t: Trig)
    requires m >= 0
    ensures Eval(SqlValueExpr(Soc(minPct, maxPct)), m, t) == ValueAt(Soc(minPct, maxPct), m, t)
  {
    hide Eval, EvalCond, MinuteOfDay, SocAt;
    HourAgrees(m, t);
    SocLegs(minPct, maxPct, MinuteOfDay(m) as real / 60.0);
    SocEvaluates(SqlHour(), minPct, maxPct, maxPct - minPct, m, t);
  }

  lemma WaveEvaluates(x: Expr, period: NonZero, m: int, t: Trig)
    ensures Eval(Sin(Div(Mul(Mul(Lit(2.0), Pi), x), period)), m, t) == t.sin(TurnAngle(Eval(x, m, t), period, t))
  {
    hide Eval;
    Leaves(2.0, m, t);
    Product(Lit(2.0), Pi, m, t);
    Product(Mul(Lit(2.0), Pi), x, m, t);
    var angle := Div(Mul(Mul(Lit(2.0), Pi), x), period);
    Quotient(Mul(Mul(Lit(2.0), Pi), x), period, m, t);
    assert Eval(angle, m, t) == TurnAngle(Eval(x, m, t), period, t);
    Sine(angle, m, t);
  }

  lemma CumulativeEvaluates(offset: real, rate: real, m: int, t: Trig)
    ensures Eval(Add(Lit(offset), Div(Mul(Lit(rate), M), 1440.0)), m, t) == Cumulative(offset, rate, m)
  {
    hide Eval;
    Leaves(offset, m, t);
    Scaled(rate, M, m, t);
    SameProduct(rate, Eval(M, m, t), m as real);
    Quotient(Mul(Lit(rate), M), 1440.0, m, t);
    Sum(Lit(offset), Div(Mul(Lit(rate), M), 1440.0), m, t);
  }

  lemma RestartEvaluates(cumulative: Expr, lost: real, restart: int, m: int, t: Trig)
    ensures Eval(Case(AtLeastI(Mi, restart), Sub(cumulative, Lit(lost)), cumulative), m, t)
         == if m >= restart then Eval(cumulative, m, t) - lost else Eval(cumulative, m, t)
  {
    MiIs(restart, m, t);
    hide Eval, EvalCond;
    Leaves(lost, m, t);
    Sum(cumulative, Lit(lost), m, t);
    Choice(AtLeastI(Mi, restart), Sub(cumulative, Lit(lost)), cumulative, m, t);
  }

  lemma CounterAgrees(shape: Shape, m: int, t: Trig)
    requires shape.Counter? && m >= 0
    ensures Eval(SqlValueExpr(shape), m, t) == ValueAt(shape, m, t)
  {
    hide Eval, MinuteOfDay, Cumulative;
    HourAgrees(m, t);
    var rate, offset := shape.ratePerDay, shape.offset;
    if shape.dailyReset {
      Scaled(rate, SqlMinuteOfDay(), m, t);
      SameProduct(rate, Eval(SqlMinuteOfDay(), m, t), MinuteOfDay(m) as real);
      Quotient(Mul(Lit(rate), SqlMinuteOfDay()), 1440.0, m, t);
    } else {
      CumulativeEvaluates(offset, rate, m, t);
      if shape.restartAtMinute.Some? {
        var restart := shape.restartAtMinute.value;
        RestartEvaluates(Add(Lit(offset), Div(Mul(Lit(rate), M), 1440.0)), Cumulative(offset, rate, restart), restart,
            m, t);
      }
    }
  }

  lemma MiIs(n: int, m: int, t: Trig)
    ensures EvalCond(AtLeastI(Mi, n), m, t) <==> m >= n
  {
    assert EvalInt(Mi, m) == m;
  }

  lemma LevelAgrees(base: real, amplitude: real, periodMinutes: NonZero, m: int, t: Trig)
    ensures Eval(SqlValueExpr(Level(base, amplitude, periodMinutes)), m, t)
        == ValueAt(Level(base, amplitude, periodMinutes), m, t)
  {
    hide Eval, MinuteOfDay, TurnAngle;
    var wave := Sin(Div(Mul(Mul(Lit(2.0), Pi), M), periodMinutes));
    Leaves(base, m, t);
    WaveEvaluates(M, periodMinutes, m, t);
    Scaled(amplitude, wave, m, t);
    SameProduct(amplitude, Eval(wave, m, t), t.sin(TurnAngle(m as real, periodMinutes, t)));
    Sum(Lit(base), Mul(Lit(amplitude), wave), m, t);
  }

  lemma SignedAgrees(amplitudeW: real, m: int, t: Trig)
    requires m >= 0
    ensures Eval(SqlValueExpr(SignedPower(amplitudeW)), m, t) == ValueAt(SignedPower(amplitudeW), m, t)
  {
    hide Eval, MinuteOfDay, SqlMinuteOfDay, TurnAngle;
    var wave := Sin(Div(Mul(Mul(Lit(2.0), Pi), SqlMinuteOfDay()), 1440.0));
    HourAgrees(m, t);
    WaveEvaluates(SqlMinuteOfDay(), 1440.0, m, t);
    Scaled(amplitudeW, wave, m, t);
    SameProduct(amplitudeW, Eval(wave, m, t), t.sin(TurnAngle(MinuteOfDay(m) as real, 1440.0, t)));
  }

  /** At every minute of the span the SQL expression evaluates to the model's value. */
  lemma SqlMeansTheSame(shape: Shape, m: int, t: Trig)
    requires HasPeriod(shape) && m >= 0 && (shape.PvPower? ==> shape.peakW >= 0.0)
    ensures Eval(SqlValueExpr(shape), m, t) == ValueAt(shape, m, t)
  {
    hide Eval, MinuteOfDay;
    match shape
    case PvPower(peakW) => PvAgrees(peakW, m, t);
    case Soc(minPct, maxPct) => SocAgrees(minPct, maxPct, m, t);
    case Counter(_, _, _, _) => CounterAgrees(shape, m, t);
    case SignedPower(amplitudeW) => SignedAgrees(amplitudeW, m, t);
    case Level(base, amplitude, periodMinutes) => LevelAgrees(base, amplitude, periodMinutes, m, t);
    case Status(value) => Leaves(value, m, t);
  }

  ghost predicate AlwaysAgrees(shape: Shape)
    requires HasPeriod(shape)
  {
    forall m: int, t: Trig :: m >= 0 ==> Eval(SqlValueExpr(shape), m, t) == ValueAt(shape, m, t)
  }

  /** With a negative peak the clamp lands on the wrong side of the product. */
  lemma NegativePeakDiffers(peakW: real)
    requires peakW < 0.0
    ensures var one := Trig(x => 1.0, 0.0);
            Eval(SqlValueExpr(PvPower(peakW)), 0, one) == 0.0 && ValueAt(PvPower(peakW), 0, one) == peakW
  {
    PvEvaluates(peakW, 0, Trig(x => 1.0, 0.0));
  }

  /** The two models agree everywhere exactly for shapes with no negative peak. */
  lemma AgreementIsExact(shape: Shape)
    requires HasPeriod(shape)
    ensures AlwaysAgrees(shape) <==> (shape.PvPower? ==> shape.peakW >= 0.0)
  {
    if shape.PvPower? && shape.peakW < 0.0 {
      var one := Trig(x => 1.0, 0.0);
      NegativePeakDiffers(shape.peakW);
      assert Eval(SqlValueExpr(shape), 0, one) != ValueAt(shape, 0, one);
    } else {
      forall m: int, t: Trig | m >= 0 ensures Eval(SqlValueExpr(shape), m, t) == ValueAt(shape, m, t) {
        SqlMeansTheSame(shape, m, t);
      }
    }
  }

  /** Every shape that a profile is given is one of them. */
  lemma AssignedShapesAgree(metrics: seq<Metric>, spanDays: nat, i: nat)
    requires i < |metrics|
    ensures HasPeriod(AssignShapes(metrics, spanDays)[i]) && AlwaysAgrees(AssignShapes(metrics, spanDays)[i])
  {
    AgreementIsExact(AssignShapes(metrics, spanDays)[i]);
  }
}
