/** The battery's physical state (src/battery_model.py): a stored energy `soc`
    in kWh that charge and discharge move inside the band
    [capacity * socMin, capacity * socMax]. Quantities are exact reals. */
module BatteryModel {

  /** The battery's fixed ratings, as the constructor records them. */
  datatype Params = Params(capacity: real, power: real, efficiency: real, socMin: real, socMax: real)

  /** The parameter ranges under which the battery behaves physically. The
      constructor does not check them; charging and discharging require them
      through the object invariant. */
  predicate ValidParams(p: Params)
    ensures ValidParams(p) ==> 0.0 <= Floor(p) < Ceiling(p)
  {
    p.capacity > 0.0 && p.power >= 0.0 &&
    0.0 < p.efficiency <= 1.0 &&
    0.0 <= p.socMin < p.socMax <= 1.0
  }

  /** Lowest and highest stored energy allowed, in kWh. */
  function Floor(p: Params): real { p.capacity * p.socMin }
  function Ceiling(p: Params): real { p.capacity * p.socMax }

  predicate InBand(p: Params, soc: real)
  {
    Floor(p) <= soc <= Ceiling(p)
  }

  function Min(a: real, b: real): (m: real)
    ensures m <= a && m <= b && (m == a || m == b)
  {
    if a <= b then a else b
  }

  lemma ProductNonNegative(a: real, b: real)
    requires a >= 0.0 && b >= 0.0
    ensures a * b >= 0.0
  {
  }

  /** Energy a request asks to store: the power, capped at the rating, over the
      duration, after the charging losses. */
  function RequestedIn(p: Params, powerInput: real, duration: real): (e: real)
    requires ValidParams(p) && powerInput >= 0.0 && duration >= 0.0
    ensures e >= 0.0
  {
    ProductNonNegative(Min(powerInput, p.power), duration);
    ProductNonNegative(Min(powerInput, p.power) * duration, p.efficiency);
    Min(powerInput, p.power) * duration * p.efficiency
  }

  /** Energy a request asks to draw from storage: the power, capped at the
      rating, over the duration, grossed up for the discharging losses. */
  function RequestedOut(p: Params, powerOutput: real, duration: real): (e: real)
    requires ValidParams(p) && powerOutput >= 0.0 && duration >= 0.0
    ensures e >= 0.0
  {
    ProductNonNegative(Min(powerOutput, p.power), duration);
    Min(powerOutput, p.power) * duration / p.efficiency
  }

  /** The energy that `charge` puts into storage from stored energy `soc`: the
      request, clipped so that the stored energy lands at most on the ceiling. */
  function ChargedEnergy(p: Params, soc: real, powerInput: real, duration: real): (e: real)
    requires ValidParams(p) && InBand(p, soc) && powerInput >= 0.0 && duration >= 0.0
    ensures 0.0 <= e <= RequestedIn(p, powerInput, duration)
    ensures InBand(p, soc + e)
    ensures e == RequestedIn(p, powerInput, duration) || soc + e == Ceiling(p)
  {
    Min(RequestedIn(p, powerInput, duration), Ceiling(p) - soc)
  }

  /** The energy that `discharge` takes out of storage from stored energy `soc`:
      the request, clipped so that the stored energy lands at least on the floor. */
  function DrawnEnergy(p: Params, soc: real, powerOutput: real, duration: real): (d: real)
    requires ValidParams(p) && InBand(p, soc) && powerOutput >= 0.0 && duration >= 0.0
    ensures 0.0 <= d <= RequestedOut(p, powerOutput, duration)
    ensures InBand(p, soc - d)
    ensures d == RequestedOut(p, powerOutput, duration) || soc - d == Floor(p)
  {
    Min(RequestedOut(p, powerOutput, duration), soc - Floor(p))
  }

  /** At the ceiling nothing more can be stored. */
  lemma ChargeAtCeiling(p: Params, powerInput: real, duration: real)
    requires ValidParams(p) && powerInput >= 0.0 && duration >= 0.0
    ensures ChargedEnergy(p, Ceiling(p), powerInput, duration) == 0.0
  {
  }

  /** At the floor nothing more can be drawn. */
  lemma DischargeAtFloor(p: Params, powerOutput: real, duration: real)
    requires ValidParams(p) && powerOutput >= 0.0 && duration >= 0.0
    ensures DrawnEnergy(p, Floor(p), powerOutput, duration) == 0.0
  {
  }

  /** What `discharge` delivers to the grid, the drawn energy after losses, is
      no more than what left storage and no more than the capped power over the
      duration. */
  lemma DeliveredBounds(p: Params, soc: real, powerOutput: real, duration: real)
    requires ValidParams(p) && InBand(p, soc) && powerOutput >= 0.0 && duration >= 0.0
    ensures var d := DrawnEnergy(p, soc, powerOutput, duration);
      0.0 <= d * p.efficiency <= d &&
      d * p.efficiency <= Min(powerOutput, p.power) * duration
  {
    var d := DrawnEnergy(p, soc, powerOutput, duration);
    var m := Min(powerOutput, p.power) * duration;
    ProductNonNegative(d, p.efficiency);
    ProductNonNegative(d, 1.0 - p.efficiency);
    assert d * p.efficiency <= m by {
      assert d <= m / p.efficiency;
      assert d * p.efficiency <= (m / p.efficiency) * p.efficiency by {
        ProductNonNegative(m / p.efficiency - d, p.efficiency);
      }
    }
  }

  /** Multiplying by an efficiency below 1 strictly shrinks a positive amount. */
  lemma StrictLoss(e: real, efficiency: real)
    requires e > 0.0 && 0.0 < efficiency < 1.0
    ensures e * efficiency < e
  {
    assert e * (1.0 - efficiency) > 0.0;
    assert e * efficiency == e - e * (1.0 - efficiency);
  }

  /** Losses only shrink what is stored and only grow what must be drawn: the
      capped power over the duration lies between the two requests. */
  lemma RequestsAroundLossless(p: Params, power: real, duration: real)
    requires ValidParams(p) && power >= 0.0 && duration >= 0.0
    ensures RequestedIn(p, power, duration) <= Min(power, p.power) * duration <= RequestedOut(p, power, duration)
  {
    var m := Min(power, p.power) * duration;
    ProductNonNegative(Min(power, p.power), duration);
    ProductNonNegative(m, 1.0 - p.efficiency);
    assert m * p.efficiency == m - m * (1.0 - p.efficiency);
    var q := m / p.efficiency;
    assert q * p.efficiency == m;
    assert q >= 0.0;
    ProductNonNegative(q, 1.0 - p.efficiency);
    assert q * (1.0 - p.efficiency) == q - m;
    assert RequestedIn(p, power, duration) == m * p.efficiency;
    assert RequestedOut(p, power, duration) == q;
  }

  /** Charging from the floor and discharging back with the same request draws
      back exactly what was stored, and the grid receives that drawn energy
      times the efficiency: strictly less than was stored whenever
      efficiency < 1 and something was stored, and exactly as much when
      efficiency == 1. */
  lemma RoundTripFromFloor(p: Params, power: real, duration: real)
    requires ValidParams(p) && power >= 0.0 && duration >= 0.0
    ensures var e := ChargedEnergy(p, Floor(p), power, duration);
      DrawnEnergy(p, Floor(p) + e, power, duration) == e
    ensures var e := ChargedEnergy(p, Floor(p), power, duration);
      p.efficiency < 1.0 && e > 0.0 ==> DrawnEnergy(p, Floor(p) + e, power, duration) * p.efficiency < e
    ensures var e := ChargedEnergy(p, Floor(p), power, duration);
      p.efficiency == 1.0 ==> DrawnEnergy(p, Floor(p) + e, power, duration) * p.efficiency == e
  {
    var e := ChargedEnergy(p, Floor(p), power, duration);
    var d := DrawnEnergy(p, Floor(p) + e, power, duration);
    DrawsBackStored(p, power, duration);
    AfterLoss(d, e, p.efficiency);
  }

  lemma DrawsBackStored(p: Params, power: real, duration: real)
    requires ValidParams(p) && power >= 0.0 && duration >= 0.0
    ensures var e := ChargedEnergy(p, Floor(p), power, duration);
      DrawnEnergy(p, Floor(p) + e, power, duration) == e
  {
    RequestsAroundLossless(p, power, duration);
  }

  /** An amount d equal to e, times an efficiency in (0, 1]: strictly below e
      when the efficiency is below 1 and e is positive, equal to e at 1. */
  lemma AfterLoss(d: real, e: real, efficiency: real)
    requires d == e && 0.0 < efficiency <= 1.0
    ensures efficiency < 1.0 && e > 0.0 ==> d * efficiency < e
    ensures efficiency == 1.0 ==> d * efficiency == e
  {
    if efficiency < 1.0 && e > 0.0 {
      StrictLoss(e, efficiency);
    }
  }

  /** The battery object: fixed ratings and one mutable field, the stored energy. */
  class Battery {
    const capacity: real  // kWh
    const power: real     // kW, maximum charge/discharge power
    const efficiency: real
    const socMin: real    // fraction of capacity
    const socMax: real    // fraction of capacity
    var soc: real         // kWh

    function Ratings(): Params
    {
      Params(capacity, power, efficiency, socMin, socMax)
    }

    /** The object invariant: valid ratings and the stored energy in band. */
    ghost predicate Valid()
      reads this
    {
      ValidParams(Ratings()) && InBand(Ratings(), soc)
    }

    /** A new battery starts full, at the upper bound of its band. */
    constructor (capacityKwh: real, powerKw: real, efficiency: real, socMin: real := 0.1, socMax: real := 0.9)
      ensures Ratings() == Params(capacityKwh, powerKw, efficiency, socMin, socMax)
      ensures soc == Ceiling(Ratings())
      ensures ValidParams(Ratings()) ==> Valid() && GetSoc() == socMax
    {
      this.capacity := capacityKwh;
      this.power := powerKw;
      this.efficiency := efficiency;
      this.socMin := socMin;
      this.socMax := socMax;
      this.soc := socMax * capacityKwh;
    }

    /** The state of charge as a fraction of capacity. */
    function GetSoc(): (f: real)
      reads this
      requires capacity != 0.0
      ensures f * capacity == soc
    {
      soc / capacity
    }

    /** While the invariant holds the fraction lies in [socMin, socMax]. */
    lemma GetSocInBand()
      requires Valid()
      ensures socMin <= GetSoc() <= socMax
    {
      FractionInBand(Ratings(), soc);
    }

    /** Charges at `powerInput` kW for `duration` hours and returns the energy
        that entered storage, which is exactly the rise of `soc`. */
    method Charge(powerInput: real, duration: real) returns (energyCharged: real)
      requires Valid() && powerInput >= 0.0 && duration >= 0.0
      modifies this
      ensures Valid()
      ensures energyCharged == ChargedEnergy(Ratings(), old(soc), powerInput, duration)
      ensures soc == old(soc) + energyCharged
    {
      var clamped := Min(powerInput, power);
      var energyIn := clamped * duration * efficiency;
      assert energyIn == RequestedIn(Ratings(), powerInput, duration);
      var availableCapacity := capacity * socMax - soc;
      assert availableCapacity == Ceiling(Ratings()) - soc;
      energyCharged := Min(energyIn, availableCapacity);
      assert energyCharged == ChargedEnergy(Ratings(), soc, powerInput, duration);
      soc := soc + energyCharged;
    }

    /** Discharges at `powerOutput` kW for `duration` hours and returns the
        energy delivered to the grid: the fall of `soc` times the efficiency. */
    method Discharge(powerOutput: real, duration: real) returns (energyDelivered: real)
      requires Valid() && powerOutput >= 0.0 && duration >= 0.0
      modifies this
      ensures Valid()
      ensures soc == old(soc) - DrawnEnergy(Ratings(), old(soc), powerOutput, duration)
      ensures energyDelivered == DrawnEnergy(Ratings(), old(soc), powerOutput, duration) * efficiency
    {
      var clamped := Min(powerOutput, power);
      var energyOut := clamped * duration / efficiency;
      assert energyOut == RequestedOut(Ratings(), powerOutput, duration);
      var energyAvailable := soc - capacity * socMin;
      assert energyAvailable == soc - Floor(Ratings());
      var energyDischarged := Min(energyOut, energyAvailable);
      assert energyDischarged == DrawnEnergy(Ratings(), soc, powerOutput, duration);
      soc := soc - energyDischarged;
      energyDelivered := energyDischarged * efficiency;
    }
  }

  /** Stored energy in band means the fraction `soc / capacity` is in [socMin, socMax]. */
  lemma FractionInBand(p: Params, soc: real)
    requires ValidParams(p) && InBand(p, soc)
    ensures p.socMin <= soc / p.capacity <= p.socMax
  {
    var f := soc / p.capacity;
    assert f - p.socMin == (soc - Floor(p)) / p.capacity;
    assert p.socMax - f == (Ceiling(p) - soc) / p.capacity;
  }
}
