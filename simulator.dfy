/** The simulation loop (src/simulator.py, run_simulation): walks a price
    series in order, asks the threshold rule for an action at each step,
    applies it to the live battery at full rated power and records one
    dispatch record per step. */
module Simulator {
  import opened Strategy
  import opened BatteryModel

  /** One entry of the price series: its timestamp and its price (EUR/MWh). */
  datatype Sample<T> = Sample(time: T, price: real)

  /** One step of the trace. `socBefore` and `socAfter` are fractions of
      capacity, as `get_soc` reports them; `energy` is what was exchanged
      with the grid and `revenue` is negative when buying, positive when
      selling. */
  datatype Record<T> = Record(
    time: T, price: real, action: Action,
    socBefore: real, socAfter: real, energy: real, revenue: real)

  /** Stored energy after applying `a` for `dt` hours at full rated power. */
  function NextSoc(p: Params, soc: real, a: Action, dt: real): (next: real)
    requires ValidParams(p) && InBand(p, soc) && dt >= 0.0
    ensures InBand(p, next)
  {
    match a
    case Charge => soc + ChargedEnergy(p, soc, p.power, dt)
    case Discharge => soc - DrawnEnergy(p, soc, p.power, dt)
    case Idle => soc
  }

  /** Energy exchanged with the grid by `a`: what entered storage when
      charging, what reached the grid when discharging, nothing when idle. */
  function GridEnergy(p: Params, soc: real, a: Action, dt: real): (e: real)
    requires ValidParams(p) && InBand(p, soc) && dt >= 0.0
    ensures e >= 0.0
  {
    match a
    case Charge => ChargedEnergy(p, soc, p.power, dt)
    case Discharge =>
      ProductNonNegative(DrawnEnergy(p, soc, p.power, dt), p.efficiency);
      DrawnEnergy(p, soc, p.power, dt) * p.efficiency
    case Idle => 0.0
  }

  /** Cash flow of exchanging `e` with the grid at `price` under `a`. */
  function CashFlow(a: Action, e: real, price: real): real
  {
    match a
    case Charge => -e * price
    case Discharge => e * price
    case Idle => 0.0
  }

  /** The record of one step taken from stored energy `soc`. */
  function StepRecord<T>(p: Params, soc: real, s: Sample<T>, dt: real): Record<T>
    requires ValidParams(p) && InBand(p, soc) && dt >= 0.0
  {
    var a := SimpleThreshold(s.price);
    var e := GridEnergy(p, soc, a, dt);
    Record(s.time, s.price, a, soc / p.capacity, NextSoc(p, soc, a, dt) / p.capacity, e, CashFlow(a, e, s.price))
  }

  /** The trace of a whole run from stored energy `soc`. */
  function Trace<T>(p: Params, soc: real, prices: seq<Sample<T>>, dt: real): seq<Record<T>>
    requires ValidParams(p) && InBand(p, soc) && dt >= 0.0
    decreases |prices|
  {
    if |prices| == 0 then []
    else
      var a := SimpleThreshold(prices[0].price);
      [StepRecord(p, soc, prices[0], dt)] + Trace(p, NextSoc(p, soc, a, dt), prices[1..], dt)
  }

  /** The stored energy at the end of a run from `soc`. */
  function FinalSoc<T>(p: Params, soc: real, prices: seq<Sample<T>>, dt: real): (last: real)
    requires ValidParams(p) && InBand(p, soc) && dt >= 0.0
    ensures InBand(p, last)
    decreases |prices|
  {
    if |prices| == 0 then soc
    else FinalSoc(p, NextSoc(p, soc, SimpleThreshold(prices[0].price), dt), prices[1..], dt)
  }

  /** One pass of the loop body: decide, apply to the live battery, record. */
  method DispatchStep<T>(sample: Sample<T>, battery: Battery, timestep: real) returns (record: Record<T>)
    requires battery.Valid() && timestep >= 0.0
    modifies battery
    ensures battery.Valid()
    ensures record == StepRecord(battery.Ratings(), old(battery.soc), sample, timestep)
    ensures battery.soc == NextSoc(battery.Ratings(), old(battery.soc), record.action, timestep)
  {
    var price := sample.price;
    var action := SimpleThreshold(price);
    var socBefore := battery.GetSoc();
    var energy := 0.0;
    var revenue := 0.0;
    if action == Charge {
      energy := battery.Charge(battery.power, timestep);
      revenue := -energy * price;
    } else if action == Discharge {
      energy := battery.Discharge(battery.power, timestep);
      revenue := energy * price;
    }
    var socAfter := battery.GetSoc();
    record := Record(sample.time, price, action, socBefore, socAfter, energy, revenue);
  }

  /** Runs the threshold rule over the series against the live battery, which
      ends in the state the trace predicts. */
  method RunSimulation<T>(prices: seq<Sample<T>>, battery: Battery, timestep: real := 1.0)
    returns (history: seq<Record<T>>)
    requires battery.Valid() && timestep >= 0.0
    modifies battery
    ensures battery.Valid()
    ensures history == Trace(battery.Ratings(), old(battery.soc), prices, timestep)
    ensures battery.soc == FinalSoc(battery.Ratings(), old(battery.soc), prices, timestep)
  {
    ghost var p := battery.Ratings();
    ghost var soc0 := battery.soc;
    history := [];
    var i := 0;
    while i < |prices|
      invariant 0 <= i <= |prices|
      invariant battery.Valid() && battery.Ratings() == p
      invariant history + Trace(p, battery.soc, prices[i..], timestep) == Trace(p, soc0, prices, timestep)
      invariant FinalSoc(p, battery.soc, prices[i..], timestep) == FinalSoc(p, soc0, prices, timestep)
    {
      ghost var before := battery.soc;
      var record := DispatchStep(prices[i], battery, timestep);
      TraceUnfold(p, before, prices[i..], timestep);
      assert prices[i..][0] == prices[i];
      assert prices[i..][1..] == prices[i + 1..];
      history := history + [record];
      i := i + 1;
    }
    assert prices[i..] == [];
  }

  /** The trace and the final energy of a non-empty series, one step peeled off. */
  lemma TraceUnfold<T>(p: Params, soc: real, prices: seq<Sample<T>>, dt: real)
    requires ValidParams(p) && InBand(p, soc) && dt >= 0.0 && |prices| >= 1
    ensures var next := NextSoc(p, soc, SimpleThreshold(prices[0].price), dt);
      Trace(p, soc, prices, dt) == [StepRecord(p, soc, prices[0], dt)] + Trace(p, next, prices[1..], dt) &&
      FinalSoc(p, soc, prices, dt) == FinalSoc(p, next, prices[1..], dt)
  {
  }

  /** The trace has one record per sample, in series order, each carrying its
      sample's timestamp and price and the threshold rule's action for it;
      it starts at the initial fraction and ends at the final one. */
  lemma {:induction false} TraceShape<T>(p: Params, soc: real, prices: seq<Sample<T>>, dt: real)
    requires ValidParams(p) && InBand(p, soc) && dt >= 0.0
    ensures var t := Trace(p, soc, prices, dt);
      |t| == |prices| &&
      (forall i :: 0 <= i < |t| ==>
        t[i].time == prices[i].time && t[i].price == prices[i].price &&
        t[i].action == SimpleThreshold(prices[i].price)) &&
      (|t| > 0 ==> t[0].socBefore == soc / p.capacity &&
                   t[|t| - 1].socAfter == FinalSoc(p, soc, prices, dt) / p.capacity)
    decreases |prices|
  {
    if |prices| > 0 {
      var next := NextSoc(p, soc, SimpleThreshold(prices[0].price), dt);
      TraceShape(p, next, prices[1..], dt);
      var t := Trace(p, soc, prices, dt);
      var rest := Trace(p, next, prices[1..], dt);
      assert t == [StepRecord(p, soc, prices[0], dt)] + rest;
      forall i | 0 <= i < |t|
        ensures t[i].time == prices[i].time && t[i].price == prices[i].price &&
                t[i].action == SimpleThreshold(prices[i].price)
      {
        if i > 0 {
          assert t[i] == rest[i - 1];
          assert prices[1..][i - 1] == prices[i];
        }
      }
      if |rest| == 0 {
        assert prices[1..] == [];
      }
    }
  }

  /** Consecutive records chain: each step starts where the previous one ended. */
  lemma {:induction false} TraceChains<T>(p: Params, soc: real, prices: seq<Sample<T>>, dt: real)
    requires ValidParams(p) && InBand(p, soc) && dt >= 0.0
    ensures var t := Trace(p, soc, prices, dt);
      forall i :: 0 <= i < |t| - 1 ==> t[i].socAfter == t[i + 1].socBefore
    decreases |prices|
  {
    if |prices| > 0 {
      var next := NextSoc(p, soc, SimpleThreshold(prices[0].price), dt);
      TraceChains(p, next, prices[1..], dt);
      TraceShape(p, next, prices[1..], dt);
      var t := Trace(p, soc, prices, dt);
      var rest := Trace(p, next, prices[1..], dt);
      assert t == [StepRecord(p, soc, prices[0], dt)] + rest;
      forall i | 0 <= i < |t| - 1
        ensures t[i].socAfter == t[i + 1].socBefore
      {
        if i > 0 {
          assert t[i] == rest[i - 1] && t[i + 1] == rest[i];
        }
      }
    }
  }

  /** What every record promises: fractions within [socMin, socMax], a
      non-negative energy, an idle step that changes nothing, a charge that
      pays for exactly the energy stored, and a discharge that is paid for the
      stored energy it drew less the losses, never a negative amount. */
  ghost predicate Consistent<T>(p: Params, r: Record<T>)
  {
    p.socMin <= r.socBefore <= p.socMax && p.socMin <= r.socAfter <= p.socMax &&
    r.energy >= 0.0 &&
    (r.action == Idle ==> r.energy == 0.0 && r.revenue == 0.0 && r.socAfter == r.socBefore) &&
    (r.action == Charge ==>
      r.revenue == -r.energy * r.price && r.energy == (r.socAfter - r.socBefore) * p.capacity) &&
    (r.action == Discharge ==>
      r.revenue == r.energy * r.price && r.revenue >= 0.0 &&
      r.energy == (r.socBefore - r.socAfter) * p.capacity * p.efficiency)
  }

  /** Fractions of a common positive capacity subtract like the energies. */
  lemma FractionDifference(a: real, b: real, c: real)
    requires c > 0.0
    ensures (a / c - b / c) * c == a - b
  {
    assert a / c - b / c == (a - b) / c;
  }

  /** Every single step yields a consistent record. */
  lemma StepConsistent<T>(p: Params, soc: real, s: Sample<T>, dt: real)
    requires ValidParams(p) && InBand(p, soc) && dt >= 0.0
    ensures Consistent(p, StepRecord(p, soc, s, dt))
  {
    var a := SimpleThreshold(s.price);
    var next := NextSoc(p, soc, a, dt);
    var e := GridEnergy(p, soc, a, dt);
    var r := StepRecord(p, soc, s, dt);
    assert r == Record(s.time, s.price, a, soc / p.capacity, next / p.capacity, e, CashFlow(a, e, s.price));
    match a
    case Idle =>
      FractionInBand(p, soc);
    case Charge =>
      ChargeRecord(p, soc, next, r);
    case Discharge =>
      var d := DrawnEnergy(p, soc, p.power, dt);
      DischargeRecord(p, soc, next, d, r);
  }

  lemma ChargeRecord<T>(p: Params, soc: real, next: real, r: Record<T>)
    requires ValidParams(p) && InBand(p, soc) && InBand(p, next)
    requires r.action == Charge && r.energy == next - soc && r.energy >= 0.0
    requires r.socBefore == soc / p.capacity && r.socAfter == next / p.capacity
    requires r.revenue == -r.energy * r.price
    ensures Consistent(p, r)
  {
    FractionInBand(p, soc);
    FractionInBand(p, next);
    FractionDifference(next, soc, p.capacity);
  }

  lemma DischargeRecord<T>(p: Params, soc: real, next: real, d: real, r: Record<T>)
    requires ValidParams(p) && InBand(p, soc) && InBand(p, next)
    requires r.action == Discharge && next == soc - d && r.energy == d * p.efficiency && r.energy >= 0.0
    requires r.socBefore == soc / p.capacity && r.socAfter == next / p.capacity
    requires r.revenue == r.energy * r.price && r.price > DefaultHigh
    ensures Consistent(p, r)
  {
    FractionInBand(p, soc);
    FractionInBand(p, next);
    FractionDifference(soc, next, p.capacity);
    ProductNonNegative(r.energy, r.price);
  }

  /** Every record of a run is consistent. */
  lemma {:induction false} TraceConsistent<T>(p: Params, soc: real, prices: seq<Sample<T>>, dt: real)
    requires ValidParams(p) && InBand(p, soc) && dt >= 0.0
    ensures var t := Trace(p, soc, prices, dt);
      forall i :: 0 <= i < |t| ==> Consistent(p, t[i])
    decreases |prices|
  {
    if |prices| > 0 {
      var next := NextSoc(p, soc, SimpleThreshold(prices[0].price), dt);
      TraceConsistent(p, next, prices[1..], dt);
      StepConsistent(p, soc, prices[0], dt);
      TraceUnfold(p, soc, prices, dt);
      var r := StepRecord(p, soc, prices[0], dt);
      var rest := Trace(p, next, prices[1..], dt);
      ConsistentCons(p, r, rest);
      assert Trace(p, soc, prices, dt) == [r] + rest;
    }
  }

  lemma ConsistentCons<T>(p: Params, r: Record<T>, rest: seq<Record<T>>)
    requires Consistent(p, r) && forall k :: 0 <= k < |rest| ==> Consistent(p, rest[k])
    ensures forall i :: 0 <= i < |rest| + 1 ==> Consistent(p, ([r] + rest)[i])
  {
    forall i | 0 <= i < |rest| + 1
      ensures Consistent(p, ([r] + rest)[i])
    {
      if i == 0 {
        assert ([r] + rest)[i] == r;
      } else {
        assert ([r] + rest)[i] == rest[i - 1];
      }
    }
  }

  /** Change of stored energy implied by a record's grid energy: what was
      bought goes in whole, what was sold came out grossed up for the losses. */
  function StoredChange<T>(p: Params, r: Record<T>): real
    requires ValidParams(p)
  {
    match r.action
    case Charge => r.energy
    case Discharge => -(r.energy / p.efficiency)
    case Idle => 0.0
  }

  function TotalStoredChange<T>(p: Params, t: seq<Record<T>>): real
    requires ValidParams(p)
  {
    if |t| == 0 then 0.0 else StoredChange(p, t[0]) + TotalStoredChange(p, t[1..])
  }

  /** Energy balance of a run: the stored energy moves by exactly what was
      bought minus what was sold grossed up for the discharge losses. */
  lemma {:induction false} EnergyBalance<T>(p: Params, soc: real, prices: seq<Sample<T>>, dt: real)
    requires ValidParams(p) && InBand(p, soc) && dt >= 0.0
    ensures FinalSoc(p, soc, prices, dt) == soc + TotalStoredChange(p, Trace(p, soc, prices, dt))
    decreases |prices|
  {
    if |prices| > 0 {
      var a := SimpleThreshold(prices[0].price);
      var next := NextSoc(p, soc, a, dt);
      EnergyBalance(p, next, prices[1..], dt);
      TraceUnfold(p, soc, prices, dt);
      var r := StepRecord(p, soc, prices[0], dt);
      var rest := Trace(p, next, prices[1..], dt);
      StepStoredChange(p, soc, prices[0], dt);
      assert ([r] + rest)[1..] == rest;
    }
  }

  /** One step moves the stored energy by its record's stored change. */
  lemma StepStoredChange<T>(p: Params, soc: real, s: Sample<T>, dt: real)
    requires ValidParams(p) && InBand(p, soc) && dt >= 0.0
    ensures NextSoc(p, soc, SimpleThreshold(s.price), dt) == soc + StoredChange(p, StepRecord(p, soc, s, dt))
  {
    var a := SimpleThreshold(s.price);
    var r := StepRecord(p, soc, s, dt);
    var next := NextSoc(p, soc, a, dt);
    assert r.action == a && r.energy == GridEnergy(p, soc, a, dt);
    match a
    case Charge =>
      assert next == soc + r.energy;
    case Idle =>
      assert next == soc && r.energy == 0.0;
    case Discharge =>
      var d := DrawnEnergy(p, soc, p.power, dt);
      assert next == soc - d && r.energy == d * p.efficiency;
      DischargeStoredChange(p, soc, next, d, r);
  }

  lemma DischargeStoredChange<T>(p: Params, soc: real, next: real, d: real, r: Record<T>)
    requires ValidParams(p) && r.action == Discharge
    requires next == soc - d && r.energy == d * p.efficiency
    ensures next == soc + StoredChange(p, r)
  {
    Regrossed(d, p.efficiency);
  }

  lemma Regrossed(d: real, efficiency: real)
    requires efficiency > 0.0
    ensures d * efficiency / efficiency == d
  {
  }

  /** A worked run: 100 kWh, 50 kW, efficiency 0.9, band [10, 90] kWh,
      starting full at 90 kWh, hourly prices 30, 90, 50, 10, 95. */
  const RunBattery := Params(100.0, 50.0, 0.9, 0.1, 0.9)
  const RunPrices := [Sample(0, 30.0), Sample(1, 90.0), Sample(2, 50.0), Sample(3, 10.0), Sample(4, 95.0)]

  /** The run idles, sells 50 kWh for 4500, idles, buys 45 kWh for 450 and
      sells 50 kWh for 4750; each sale draws 500/9 kWh from storage. */
  lemma ExampleRun()
    ensures ValidParams(RunBattery) && InBand(RunBattery, 90.0)
    ensures Trace(RunBattery, 90.0, RunPrices, 1.0) == [
      Record(0, 30.0, Idle, 0.9, 0.9, 0.0, 0.0),
      Record(1, 90.0, Discharge, 0.9, 31.0 / 90.0, 50.0, 4500.0),
      Record(2, 50.0, Idle, 31.0 / 90.0, 31.0 / 90.0, 0.0, 0.0),
      Record(3, 10.0, Charge, 31.0 / 90.0, 71.5 / 90.0, 45.0, -450.0),
      Record(4, 95.0, Discharge, 71.5 / 90.0, 21.5 / 90.0, 50.0, 4750.0)]
    ensures FinalSoc(RunBattery, 90.0, RunPrices, 1.0) == 215.0 / 9.0
  {
    var p := RunBattery;
    var s := RunPrices;
    assert NextSoc(p, 90.0, Idle, 1.0) == 90.0;
    assert DrawnEnergy(p, 90.0, 50.0, 1.0) == 500.0 / 9.0;
    assert NextSoc(p, 90.0, Discharge, 1.0) == 310.0 / 9.0;
    assert ChargedEnergy(p, 310.0 / 9.0, 50.0, 1.0) == 45.0;
    assert NextSoc(p, 310.0 / 9.0, Charge, 1.0) == 715.0 / 9.0;
    assert DrawnEnergy(p, 715.0 / 9.0, 50.0, 1.0) == 500.0 / 9.0;
    assert NextSoc(p, 715.0 / 9.0, Discharge, 1.0) == 215.0 / 9.0;
    TraceUnfold(p, 90.0, s, 1.0);
    TraceUnfold(p, 90.0, s[1..], 1.0);
    TraceUnfold(p, 310.0 / 9.0, s[2..], 1.0);
    TraceUnfold(p, 310.0 / 9.0, s[3..], 1.0);
    TraceUnfold(p, 715.0 / 9.0, s[4..], 1.0);
    assert s[1..][1..] == s[2..] && s[2..][1..] == s[3..] && s[3..][1..] == s[4..] && s[4..][1..] == [];
  }
}
