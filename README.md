# Battery arbitrage engine: a verified model

This project models the core of a battery energy-storage arbitrage engine. The engine backtests hour-by-hour decisions to charge, discharge or idle a grid battery against a series of electricity prices. The model has four Dafny modules over three source files. `src/battery_model.py` becomes `BatteryModel`. The threshold rule, written out in both `src/strategy.py` and `src/simulator.py`, becomes `Strategy`. The rest of `src/simulator.py` is split into `HorizonSearch` and `Simulator`:

- **`BatteryModel`** models `Battery` from `src/battery_model.py`.
  - `Battery` is a class with fixed ratings (capacity, power, efficiency and the band `socMin`/`socMax`) and one mutable field, the stored energy `soc` in kWh.
  - `Charge` and `Discharge` update `soc` in place. Each is specified by a pure function, `ChargedEnergy` or `DrawnEnergy`, that gives the clipped energy.
  - Their contracts keep the object invariant `Valid()`: the ratings are physical and `soc` stays in `[capacity*socMin, capacity*socMax]`.
- **`Strategy`** models the greedy price-threshold rule `simple_threshold_strategy`. The code appears verbatim in `src/strategy.py` and in `src/simulator.py`; the model defines it once.
- **`HorizonSearch`** models the brute-force rolling-horizon search `optimization_based_strategy` from `src/simulator.py`.
  - `AllSequences(h)` is `itertools.product` over (charge, discharge, idle), proved to list all `3^h` sequences in lexicographic order.
  - `ShadowStep` and `SequenceRevenue` give the search's own one-hour arithmetic on a shadow copy of the stored energy.
  - `BestPrefix` is the first-wins maximum scan. `BestPlan` and `Decide` give what the search settles on.
  - The imperative method `OptimizationBasedStrategy` mirrors the nested loops and is proved to return `Decide(...)`. Since it has no `modifies` clause, it cannot change the battery.
- **`Simulator`** models `run_simulation` from `src/simulator.py`.
  - The method `RunSimulation` walks the price series and dispatches the threshold rule's action to the live `Battery` at full rated power. It is proved to return exactly `Trace(...)`, a pure function of the initial stored energy, and to leave the battery in the state `FinalSoc(...)` predicts.
  - Lemmas about `Trace` state the source's promises. There is one record per price, in order, with the threshold rule's action. Records chain. Every record is consistent: fractions are in band, idle steps change nothing, charges pay `energy*price`, discharges earn it and never lose money. Energy balances.

All quantities are exact `real`s. Timestamps are a type parameter `T`. A price series is a sequence of `Sample(time, price)` values, and the trace is a sequence of `Record` values, one per dispatched step.

Things the model makes explicit:

- **The search's arithmetic differs from the battery's.** It clips to the band before applying the efficiency, and it ignores the time step. With efficiency < 1, a shadow discharge can therefore end below the floor. `ShadowDischargeCanLeaveBand` exhibits one case: 30 kWh in a [10, 90] band, efficiency 0.5, ends at -10. With efficiency 1 the shadow step is exactly the battery's one-hour charge or discharge (`ShadowMatchesBatteryWhenLossless`).
- **The search answers Idle on a two-hour example.** Take window [10, 100], a 100 kWh battery rated 50 kW with efficiency 1 and band [0, 1], and 50 kWh stored. Idle-then-discharge earns 5000 and charge-then-discharge earns 4500, so the search answers Idle (`TwoHourExample`).
- **A charge is paid for the energy that entered storage,** after the efficiency loss. This is how `run_simulation` prices it, and the model keeps it (`Consistent`, `EnergyBalance`).
- **The search's "no best yet" state** (`best_revenue = -inf`, `best_sequence = None`) is an `Option`. The first candidate is taken unconditionally.

## Model

| member | source | states |
|---|---|---|
| Strategy.SimpleThreshold | src/strategy.py:3-16 | Charge exactly when price < low; Discharge exactly when low <= price and price > high; Idle exactly when low <= price <= high; so exactly one action for every price |
| Strategy.IdleBand | src/strategy.py:11-16 | with low <= high: idle iff low <= price <= high, charge iff price < low, discharge iff price > high |
| Strategy.ChargeTakesPriority | src/strategy.py:11-14 | with crossed thresholds (high < low) a price between them charges, and the rule never idles |
| Strategy.Monotone | src/strategy.py:11-16 | with ordered thresholds a higher price never yields a lower action in the order Charge < Idle < Discharge |
| Strategy.DefaultBoundaries | src/simulator.py:45-58 | with the defaults 25 and 80: 24 charges, 25 idles, 80 idles, 81 discharges |
| BatteryModel.ChargedEnergy | src/battery_model.py:13-16 | the stored energy is between 0 and the requested min(power, rating)*duration*efficiency, lands in band, and is either the whole request or exactly what fills to the ceiling |
| BatteryModel.DrawnEnergy | src/battery_model.py:21-24 | the drawn energy is between 0 and the requested min(power, rating)*duration/efficiency, leaves the stored energy in band, and is either the whole request or exactly what empties to the floor |
| BatteryModel.ChargeAtCeiling | src/battery_model.py:15-17 | at the ceiling a charge stores nothing |
| BatteryModel.DischargeAtFloor | src/battery_model.py:23-25 | at the floor a discharge draws nothing |
| BatteryModel.DeliveredBounds | src/battery_model.py:22-26 | the energy delivered by a discharge is non-negative, at most the energy drawn and at most min(power, rating)*duration |
| BatteryModel.RequestsAroundLossless | src/battery_model.py:13-14 | the charge request (after losses) is at most the lossless amount, and the discharge request (grossed up) at least that |
| BatteryModel.RoundTripFromFloor | src/battery_model.py:12-26 | charging from the floor and discharging with the same request draws back exactly what was stored; the grid receives that drawn energy times the efficiency, strictly less than was stored when efficiency < 1, exactly as much when efficiency is 1 |
| BatteryModel.FractionInBand | src/battery_model.py:28-29 | stored energy in band means the fraction soc/capacity is in [socMin, socMax] |
| BatteryModel.Battery.constructor | src/battery_model.py:4-10 | records the ratings (defaults 0.1 and 0.9) and starts full at capacity*socMax; with valid ratings the invariant holds and the fraction equals socMax |
| BatteryModel.Battery.GetSoc | src/battery_model.py:28-29 | the fraction times the capacity is the stored energy |
| BatteryModel.Battery.GetSocInBand | src/battery_model.py:28-29 | while the invariant holds the fraction is in [socMin, socMax] |
| BatteryModel.Battery.Charge | src/battery_model.py:12-18 | keeps the invariant; returns ChargedEnergy of the old state and raises soc by exactly that |
| BatteryModel.Battery.Discharge | src/battery_model.py:20-26 | keeps the invariant; lowers soc by DrawnEnergy of the old state and returns that times the efficiency |
| HorizonSearch.AllSequences | src/simulator.py:70-71 | the product has 3^h sequences, each of length h |
| HorizonSearch.EveryPlanEnumerated | src/simulator.py:70-71 | every sequence of length h appears in the product, at the position given by its base-3 ordinal |
| HorizonSearch.EnumerationOrder | src/simulator.py:70-71 | an earlier position holds a lexicographically earlier sequence, so no sequence is listed twice |
| HorizonSearch.OrdinalIsLexOrder | src/simulator.py:70-71 | among sequences of one length, a smaller ordinal is exactly lexicographic precedence over (charge, discharge, idle) |
| HorizonSearch.TwoHourEnumeration | src/simulator.py:70-71 | the nine two-hour sequences come out as CC, CD, CI, DC, DD, DI, IC, ID, II |
| HorizonSearch.ShadowHour | src/simulator.py:84-93 | one pass of the inner loop body yields the shadow energy and running revenue ShadowStep gives |
| HorizonSearch.SimulateSequence | src/simulator.py:78-94 | playing a sequence from the battery's stored energy accumulates exactly SequenceRevenue |
| HorizonSearch.BestPrefix | src/simulator.py:96-98 | the scan's pick is at least every revenue seen and strictly greater than every earlier one |
| HorizonSearch.OptimizationBasedStrategy | src/simulator.py:61-101 | returns the first action of BestPlan, reading the battery without modifying it |
| HorizonSearch.BestPlanOptimal | src/simulator.py:96-101 | no sequence of the window's length earns more than the chosen one, and every lexicographically earlier sequence earns strictly less |
| HorizonSearch.UniqueWinnerChosen | src/simulator.py:96-101 | a sequence that alone reaches some revenue is the one chosen, and its first action is the answer |
| HorizonSearch.IdleEarnsNothing | src/simulator.py:81-94 | the all-idle sequence earns zero |
| HorizonSearch.BestPlanNonNegative | src/simulator.py:73-101 | the chosen sequence never earns a negative revenue |
| HorizonSearch.ShadowChargeBelowCeiling | src/simulator.py:84-88 | a shadow charge from at most the ceiling never decreases the energy and never passes the ceiling |
| HorizonSearch.ShadowMatchesBatteryWhenLossless | src/simulator.py:84-93 | with efficiency 1 the shadow step equals the battery's one-hour full-power charge and discharge, in stored energy and in the cash flow the loop books |
| HorizonSearch.ShadowDischargeCanLeaveBand | src/simulator.py:89-92 | with efficiency 0.5 a shadow discharge from inside the band ends below the floor (at -10 kWh) |
| HorizonSearch.TwoHourExample | src/simulator.py:61-101 | over [10, 100] with 100 kWh, 50 kW, efficiency 1, band [0, 1] and 50 kWh stored, the search settles on idle-then-discharge and answers Idle |
| Simulator.NextSoc | src/simulator.py:23-28 | the stored energy after any action stays in band |
| Simulator.GridEnergy | src/simulator.py:20-28 | the energy recorded for a step is never negative |
| Simulator.FinalSoc | src/simulator.py:17-30 | the stored energy at the end of a run is in band |
| Simulator.DispatchStep | src/simulator.py:18-40 | one loop pass keeps the invariant, returns StepRecord of the old state and leaves the battery at NextSoc |
| Simulator.RunSimulation | src/simulator.py:14-42 | keeps the invariant, returns exactly Trace of the initial stored energy and ends at FinalSoc |
| Simulator.TraceShape | src/simulator.py:17-40 | one record per price in series order with its timestamp, price and the threshold rule's action; it starts at the initial fraction and ends at the final one |
| Simulator.TraceChains | src/simulator.py:19-30 | each record's socAfter is the next record's socBefore |
| Simulator.StepConsistent | src/simulator.py:18-30 | a single step's record is consistent |
| Simulator.TraceConsistent | src/simulator.py:17-40 | every record of a run is consistent: fractions in [socMin, socMax], energy >= 0, idle changes nothing, a charge pays energy*price for exactly the stored rise, a discharge earns energy*price >= 0 for the stored fall times the efficiency |
| Simulator.EnergyBalance | src/simulator.py:23-28 | the final stored energy is the initial one plus everything bought minus everything sold grossed up for the losses |
| Simulator.ExampleRun | src/simulator.py:14-42 | prices 30, 90, 50, 10, 95 with (100, 50, 0.9, 0.1, 0.9) from 90 kWh give idle, discharge, idle, charge, discharge with the listed energies and revenues, all fractions in band |

## Left out

- `pyomo_optimization_strategy` (src/simulator.py:111-177): it builds a Pyomo model and asks the external GLPK solver for the answer. That solver is not part of this model.
- The forecast window construction with `pd.Timedelta` and `reindex(..., method='nearest')` (src/simulator.py:66-67): the window is a given sequence of prices, at least one long. The `current_time` and `forecast_horizon` parameters are therefore implicit in it.
- pandas plumbing (`prices.items()`, `pd.DataFrame(history)`) and the `sys.path`/`os.getcwd()` setup: the series and the trace are sequences of datatypes.
- IEEE floating point and `-float('inf')`: quantities are exact reals, and the "no best yet" state is an `Option`.
- Parameter validation, which the constructor does not perform. `ValidParams` means capacity > 0, power >= 0, 0 < efficiency <= 1 and 0 <= socMin < socMax <= 1. `OptimizationBasedStrategy` requires it. `Charge`, `Discharge` and `RunSimulation` require the object invariant `Valid()`, which is `ValidParams` plus stored energy in band. `GetSoc` requires only a non-zero capacity. The constructor requires nothing, and its `Valid()` guarantee holds only when the arguments satisfy `ValidParams`.
- BatteryModel.Battery.Charge: requires a non-negative power and duration. A negative request, which the source does not reject, would move the stored energy out of the band.
- BatteryModel.Battery.Discharge: requires a non-negative power and duration, for the same reason.
- Simulator.RunSimulation: requires a non-negative time step, for the same reason.
- HorizonSearch.OptimizationBasedStrategy: requires a window of at least one price, since `best_sequence[0]` fails on the empty product's single empty sequence.
- No claim is made that the search's shadow energy stays in band on discharge with efficiency < 1; the source does not guarantee it (see `ShadowDischargeCanLeaveBand`).
