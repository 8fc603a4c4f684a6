/**
 * Combining the plant's battery packs, after `derivePlantBattery` of
 * packages/db/src/batteries.ts. A derived record can itself be combined further.
 */
module PlantBattery {
  import opened Wrappers

  /** A pack, and just as well the record derived from several. */
  datatype Battery = Battery(usableKwh: real, maxChargeW: Option<real>, minSoc: real, nominalV: Option<real>)

  function SumUsable(packs: seq<Battery>): real {
    if packs == [] then 0.0 else SumUsable(packs[..|packs| - 1]) + packs[|packs| - 1].usableKwh
  }

  function ReservedKwh(p: Battery): real { p.usableKwh * p.minSoc / 100.0 }

  function SumReserved(packs: seq<Battery>): real {
    if packs == [] then 0.0 else SumReserved(packs[..|packs| - 1]) + ReservedKwh(packs[|packs| - 1])
  }

  function SumFloors(packs: seq<Battery>): real {
    if packs == [] then 0.0 else SumFloors(packs[..|packs| - 1]) + packs[|packs| - 1].minSoc
  }

  predicate AnyUnbounded(packs: seq<Battery>) { exists i :: 0 <= i < |packs| && packs[i].maxChargeW.None? }

  function SumCharge(packs: seq<Battery>): real {
    if packs == [] then 0.0
    else
      var last := packs[|packs| - 1].maxChargeW;
      SumCharge(packs[..|packs| - 1]) + if last.Some? then last.value else 0.0
  }

  /** The first stated voltage. */
  function FirstVoltage(packs: seq<Battery>): Option<real> {
    if packs == [] then None else if packs[0].nominalV.Some? then packs[0].nominalV else FirstVoltage(packs[1..])
  }

  function MeanFloor(packs: seq<Battery>): real
    requires packs != []
  {
    SumFloors(packs) / |packs| as real
  }

  /** The floor: reserved over usable energy, or the mean of the floors when there is no energy to weight by. */
  function PlantFloor(packs: seq<Battery>): real
    requires packs != []
  {
    if SumUsable(packs) > 0.0 then SumReserved(packs) / SumUsable(packs) * 100.0 else MeanFloor(packs)
  }

  function DerivePlantBattery(packs: seq<Battery>): Option<Battery> {
    if packs == [] then None
    else
      Some(Battery(SumUsable(packs), if AnyUnbounded(packs) then None else Some(SumCharge(packs)),
                   PlantFloor(packs), FirstVoltage(packs)))
  }

  predicate NonNegative(packs: seq<Battery>) { forall i :: 0 <= i < |packs| ==> packs[i].usableKwh >= 0.0 }

  // ----- sums over a concatenation ------------------------------------------------------

  lemma {:induction false} SumsConcat(a: seq<Battery>, b: seq<Battery>)
    ensures SumUsable(a + b) == SumUsable(a) + SumUsable(b)
    ensures SumReserved(a + b) == SumReserved(a) + SumReserved(b)
    ensures SumFloors(a + b) == SumFloors(a) + SumFloors(b)
    ensures SumCharge(a + b) == SumCharge(a) + SumCharge(b)
  {
    if b == [] {
      assert a + b == a;
    } else {
      hide ReservedKwh;
      assert (a + b)[..|a + b| - 1] == a + b[..|b| - 1];
      SumsConcat(a, b[..|b| - 1]);
    }
  }

  lemma {:induction false} VoltageConcat(a: seq<Battery>, b: seq<Battery>)
    ensures FirstVoltage(a + b) == if FirstVoltage(a).Some? then FirstVoltage(a) else FirstVoltage(b)
  {
    if a == [] {
      assert a + b == b;
    } else {
      assert (a + b)[1..] == a[1..] + b;
      VoltageConcat(a[1..], b);
    }
  }

  lemma UnboundedConcat(a: seq<Battery>, b: seq<Battery>)
    ensures AnyUnbounded(a + b) <==> AnyUnbounded(a) || AnyUnbounded(b)
  {
    if AnyUnbounded(a) {
      var i :| 0 <= i < |a| && a[i].maxChargeW.None?;
      assert (a + b)[i] == a[i];
    }
    if AnyUnbounded(b) {
      var i :| 0 <= i < |b| && b[i].maxChargeW.None?;
      assert (a + b)[|a| + i] == b[i];
    }
  }

  // ----- energy ---------------------------------------------------------------------------

  lemma {:induction false} NoEnergyNoReserve(packs: seq<Battery>)
    requires NonNegative(packs)
    ensures SumUsable(packs) >= 0.0
    ensures SumUsable(packs) == 0.0 ==> SumReserved(packs) == 0.0
  {
    if packs != [] {
      var before, last := packs[..|packs| - 1], packs[|packs| - 1];
      assert forall i :: 0 <= i < |before| ==> before[i] == packs[i];
      NoEnergyNoReserve(before);
      if SumUsable(packs) == 0.0 {
        assert last.usableKwh == 0.0;
        ZeroTimes(last.minSoc);
      }
    }
  }

  lemma ZeroTimes(x: real)
    ensures 0.0 * x / 100.0 == 0.0
  {
  }

  lemma PercentBack(r: real, u: real)
    requires u > 0.0
    ensures u * (r / u * 100.0) / 100.0 == r
  {
    var q := r / u;
    assert q * u == r;
    assert u * (q * 100.0) == (q * u) * 100.0;
  }

  /** Reserved energy is conserved: the plant reserves what its packs reserve. */
  lemma ReserveIsConserved(packs: seq<Battery>)
    requires packs != [] && NonNegative(packs)
    ensures DerivePlantBattery(packs).Some?
    ensures ReservedKwh(DerivePlantBattery(packs).value) == SumReserved(packs)
  {
    NoEnergyNoReserve(packs);
    if SumUsable(packs) > 0.0 {
      PercentBack(SumReserved(packs), SumUsable(packs));
    } else {
      ZeroTimes(PlantFloor(packs));
    }
  }

  // ----- one pack, and the fields that are not sums -------------------------------------------

  /** With one pack every rule is the identity. */
  lemma OnePackIsItself(p: Battery)
    requires p.usableKwh >= 0.0
    ensures DerivePlantBattery([p]) == Some(p)
  {
    assert [p][..0] == [] && [p][1..] == [];
    assert SumUsable([p]) == p.usableKwh && SumReserved([p]) == ReservedKwh(p) && SumFloors([p]) == p.minSoc;
    assert AnyUnbounded([p]) <==> p.maxChargeW.None? by { assert [p][0] == p; }
    if p.usableKwh > 0.0 { FloorBack(p.usableKwh, p.minSoc); } else { assert p.minSoc / 1.0 == p.minSoc; }
    assert PlantFloor([p]) == p.minSoc;
    assert SumCharge([p]) == if p.maxChargeW.Some? then p.maxChargeW.value else 0.0;
    assert FirstVoltage([p]) == p.nominalV by { assert FirstVoltage([]) == None; }
  }

  lemma FloorBack(u: real, floor: real)
    requires u > 0.0
    ensures u * floor / 100.0 / u * 100.0 == floor
  {
    var reserved := u * floor / 100.0;
    assert reserved == u * (floor / 100.0);
    assert reserved / u == floor / 100.0;
  }

  /** The plant is unbounded as soon as one pack is. */
  lemma UnboundedExactly(packs: seq<Battery>)
    requires packs != []
    ensures DerivePlantBattery(packs).Some?
    ensures DerivePlantBattery(packs).value.maxChargeW == None
       <==> exists i :: 0 <= i < |packs| && packs[i].maxChargeW == None
  {
  }

  lemma {:induction false} FirstVoltageIs(packs: seq<Battery>)
    ensures FirstVoltage(packs) == None <==> forall i :: 0 <= i < |packs| ==> packs[i].nominalV == None
    ensures forall i :: 0 <= i < |packs| && packs[i].nominalV != None
                        && (forall j :: 0 <= j < i ==> packs[j].nominalV == None) ==>
              FirstVoltage(packs) == packs[i].nominalV
  {
    if packs != [] {
      FirstVoltageIs(packs[1..]);
      assert forall i :: 0 < i < |packs| ==> packs[i] == packs[1..][i - 1];
    }
  }

  /** The voltage is the first that is stated, if any is. */
  lemma VoltageIsFirst(packs: seq<Battery>)
    requires packs != []
    ensures DerivePlantBattery(packs).Some?
    ensures DerivePlantBattery(packs).value.nominalV == None
       <==> forall i :: 0 <= i < |packs| ==> packs[i].nominalV == None
    ensures forall i :: 0 <= i < |packs| && packs[i].nominalV != None
                        && (forall j :: 0 <= j < i ==> packs[j].nominalV == None) ==>
              DerivePlantBattery(packs).value.nominalV == packs[i].nominalV
  {
    FirstVoltageIs(packs);
  }

  /** A floor of 5 % on 30 kWh and one of 50 % on 5 kWh is one of 80/7 %, not the mean of the two. */
  lemma FloorsAreWeighted(charge: Option<real>, voltage: Option<real>)
    ensures var plant := DerivePlantBattery([Battery(30.0, charge, 5.0, voltage), Battery(5.0, charge, 50.0, voltage)]);
            plant.Some? && plant.value.minSoc == 80.0 / 7.0 && plant.value.usableKwh == 35.0
  {
    TwoSums(Battery(30.0, charge, 5.0, voltage), Battery(5.0, charge, 50.0, voltage));
  }

  // ----- composition ------------------------------------------------------------------------

  function Pair(a: seq<Battery>, b: seq<Battery>): (two: seq<Battery>)
    requires a != [] && b != []
  {
    [DerivePlantBattery(a).value, DerivePlantBattery(b).value]
  }

  lemma TwoSums(x: Battery, y: Battery)
    ensures SumUsable([x, y]) == x.usableKwh + y.usableKwh
    ensures SumReserved([x, y]) == ReservedKwh(x) + ReservedKwh(y)
    ensures SumFloors([x, y]) == x.minSoc + y.minSoc
  {
    hide ReservedKwh;
    assert [x, y][..1] == [x] && [x][..0] == [];
    assert SumUsable([x]) == x.usableKwh && SumReserved([x]) == ReservedKwh(x) && SumFloors([x]) == x.minSoc;
  }

  lemma TwoCharges(x: Battery, y: Battery)
    requires x.maxChargeW.Some? && y.maxChargeW.Some?
    ensures SumCharge([x, y]) == x.maxChargeW.value + y.maxChargeW.value
  {
    assert [x, y][..1] == [x] && [x][..0] == [];
    assert SumCharge([x]) == x.maxChargeW.value;
  }

  /** Everything but the floor composes, whatever the capacities. */
  lemma OtherFieldsCompose(a: seq<Battery>, b: seq<Battery>)
    requires a != [] && b != []
    ensures var whole, two := DerivePlantBattery(a + b), DerivePlantBattery(Pair(a, b));
            && whole.Some? && two.Some? && whole.value.usableKwh == two.value.usableKwh
            && whole.value.maxChargeW == two.value.maxChargeW && whole.value.nominalV == two.value.nominalV
  {
    hide PlantFloor, SumReserved, SumFloors;
    var two := Pair(a, b);
    var x, y := two[0], two[1];
    assert [x, y] == two;
    SumsConcat(a, b);
    VoltageConcat(a, b);
    UnboundedConcat(a, b);
    TwoSums(x, y);
    assert AnyUnbounded(two) <==> x.maxChargeW.None? || y.maxChargeW.None? by { assert two[0] == x && two[1] == y; }
    if x.maxChargeW.Some? && y.maxChargeW.Some? { TwoCharges(x, y); }
    TwoVoltages(x, y);
  }

  lemma TwoVoltages(x: Battery, y: Battery)
    ensures FirstVoltage([x, y]) == if x.nominalV.Some? then x.nominalV else y.nominalV
  {
    assert [x, y][1..] == [y] && [y][1..] == [];
    assert FirstVoltage([y]) == y.nominalV;
  }

  lemma EnergyFloorsCompose(a: seq<Battery>, b: seq<Battery>)
    requires a != [] && b != [] && NonNegative(a) && NonNegative(b) && SumUsable(a) + SumUsable(b) > 0.0
    ensures PlantFloor(a + b) == PlantFloor(Pair(a, b))
  {
    hide ReservedKwh;
    SumsConcat(a, b);
    ReserveIsConserved(a);
    ReserveIsConserved(b);
    TwoSums(Pair(a, b)[0], Pair(a, b)[1]);
  }

  lemma MeanOfMeans(sa: real, na: real, sb: real, nb: real)
    requires na >= 1.0 && nb >= 1.0
    ensures (sa + sb) / (na + nb) == (sa / na + sb / nb) / 2.0 <==> na == nb || sa / na == sb / nb
  {
    var x, y := sa / na, sb / nb;
    assert x * na == sa && y * nb == sb;
    var mean := (sa + sb) / (na + nb);
    assert mean * (na + nb) == x * na + y * nb;
    assert (mean - (x + y) / 2.0) * (na + nb) == (x - y) * (na - nb) / 2.0;
    if mean == (x + y) / 2.0 {
      assert (x - y) * (na - nb) == 0.0;
    }
    if na == nb || x == y {
      assert (x - y) * (na - nb) == 0.0;
      assert (mean - (x + y) / 2.0) * (na + nb) == 0.0;
    }
  }

  lemma PairMean(x: Battery, y: Battery)
    requires x.usableKwh == 0.0 && y.usableKwh == 0.0
    ensures PlantFloor([x, y]) == (x.minSoc + y.minSoc) / 2.0
  {
    hide SumReserved, SumFloors, SumUsable;
    TwoSums(x, y);
  }

  lemma EmptyPlantFloor(packs: seq<Battery>)
    requires packs != [] && SumUsable(packs) == 0.0
    ensures PlantFloor(packs) == MeanFloor(packs)
    ensures DerivePlantBattery(packs).Some? && DerivePlantBattery(packs).value.minSoc == MeanFloor(packs)
    ensures DerivePlantBattery(packs).value.usableKwh == 0.0
  {
  }

  lemma MeanConcat(a: seq<Battery>, b: seq<Battery>)
    requires a != [] && b != []
    ensures MeanFloor(a + b) == (SumFloors(a) + SumFloors(b)) / (|a| as real + |b| as real)
  {
    SumsConcat(a, b);
    assert |a + b| as real == |a| as real + |b| as real;
  }

  lemma EmptyFloorsCompose(a: seq<Battery>, b: seq<Battery>)
    requires a != [] && b != [] && NonNegative(a) && NonNegative(b) && SumUsable(a) + SumUsable(b) == 0.0
    ensures PlantFloor(a + b) == PlantFloor(Pair(a, b)) <==> |a| == |b| || MeanFloor(a) == MeanFloor(b)
  {
    NoEnergyNoReserve(a);
    NoEnergyNoReserve(b);
    SumsConcat(a, b);
    EmptyPlantFloor(a);
    EmptyPlantFloor(b);
    EmptyPlantFloor(a + b);
    PairMean(Pair(a, b)[0], Pair(a, b)[1]);
    MeanConcat(a, b);
    hide PlantFloor, SumReserved, SumUsable, SumFloors, DerivePlantBattery;
    MeanOfMeans(SumFloors(a), |a| as real, SumFloors(b), |b| as real);
  }

  /**
   * Deriving over two groups at once is deriving over their derived records, in all
   * four fields, if and only if there is energy to weight the floors by, or the
   * groups are of the same size, or their mean floors agree.
   */
  lemma MergingComposes(a: seq<Battery>, b: seq<Battery>)
    requires a != [] && b != [] && NonNegative(a) && NonNegative(b)
    ensures DerivePlantBattery(a + b) == DerivePlantBattery(Pair(a, b))
       <==> SumUsable(a + b) > 0.0 || |a| == |b| || MeanFloor(a) == MeanFloor(b)
  {
    hide PlantFloor, SumReserved, MeanFloor, SumCharge, FirstVoltage, AnyUnbounded;
    SumsConcat(a, b);
    OtherFieldsCompose(a, b);
    NoEnergyNoReserve(a);
    NoEnergyNoReserve(b);
    if SumUsable(a) + SumUsable(b) > 0.0 { EnergyFloorsCompose(a, b); } else { EmptyFloorsCompose(a, b); }
    FloorField(a + b);
    FloorField(Pair(a, b));
  }

  lemma FloorField(packs: seq<Battery>)
    requires packs != []
    ensures DerivePlantBattery(packs).Some? && DerivePlantBattery(packs).value.minSoc == PlantFloor(packs)
  {
  }

  // ----- the floor is a floor ------------------------------------------------------------------

  predicate FloorsWithin(packs: seq<Battery>, low: real, high: real) {
    forall i :: 0 <= i < |packs| ==> low <= packs[i].minSoc <= high
  }

  /** `pct` percent of `u`. */
  function Share(u: real, pct: real): real { u * pct / 100.0 }

  lemma ShareAdds(u: real, v: real, pct: real)
    ensures Share(u + v, pct) == Share(u, pct) + Share(v, pct)
  {
    assert (u + v) * pct == u * pct + v * pct;
  }

  lemma ShareOrdered(u: real, low: real, x: real, high: real)
    requires u >= 0.0 && low <= x <= high
    ensures Share(u, low) <= Share(u, x) <= Share(u, high)
  {
    assert u * (x - low) >= 0.0 && u * (high - x) >= 0.0;
  }

  lemma {:induction false} ReservesWithin(packs: seq<Battery>, low: real, high: real)
    requires NonNegative(packs) && FloorsWithin(packs, low, high)
    ensures Share(SumUsable(packs), low) <= SumReserved(packs) <= Share(SumUsable(packs), high)
  {
    if packs != [] {
      var before, last := packs[..|packs| - 1], packs[|packs| - 1];
      assert forall i :: 0 <= i < |before| ==> before[i] == packs[i];
      ReservesWithin(before, low, high);
      assert ReservedKwh(last) == Share(last.usableKwh, last.minSoc);
      hide Share, ReservedKwh;
      ShareOrdered(last.usableKwh, low, last.minSoc, high);
      ShareAdds(SumUsable(before), last.usableKwh, low);
      ShareAdds(SumUsable(before), last.usableKwh, high);
    }
  }

  lemma {:induction false} FloorsAddUp(packs: seq<Battery>, low: real, high: real)
    requires FloorsWithin(packs, low, high)
    ensures |packs| as real * low <= SumFloors(packs) <= |packs| as real * high
  {
    if packs != [] {
      var before, last := packs[..|packs| - 1], packs[|packs| - 1];
      assert forall i :: 0 <= i < |before| ==> before[i] == packs[i];
      FloorsAddUp(before, low, high);
      assert |packs| as real == |before| as real + 1.0;
      assert |packs| as real * low == |before| as real * low + low;
      assert |packs| as real * high == |before| as real * high + high;
    }
  }

  lemma DivideWithin(r: real, u: real, low: real, high: real)
    requires u > 0.0 && u * low <= r <= u * high
    ensures low <= r / u <= high
  {
    var q := r / u;
    assert q * u == r;
    assert q < low ==> (low - q) * u > 0.0;
    assert q > high ==> (q - high) * u > 0.0;
  }

  /** The plant floor lies between the lowest and the highest floor of its packs. */
  lemma FloorIsBetween(packs: seq<Battery>, low: real, high: real)
    requires packs != [] && NonNegative(packs) && FloorsWithin(packs, low, high)
    ensures low <= PlantFloor(packs) <= high
  {
    if SumUsable(packs) > 0.0 {
      ReservesWithin(packs, low, high);
      assert SumUsable(packs) * (low / 100.0) == SumUsable(packs) * low / 100.0;
      assert SumUsable(packs) * (high / 100.0) == SumUsable(packs) * high / 100.0;
      DivideWithin(SumReserved(packs), SumUsable(packs), low / 100.0, high / 100.0);
    } else {
      FloorsAddUp(packs, low, high);
      DivideWithin(SumFloors(packs), |packs| as real, low, high);
    }
  }
}
