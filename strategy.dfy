/** The greedy price-threshold rule (src/strategy.py, duplicated verbatim in
    src/simulator.py), and the action type shared by every strategy. */
module Strategy {

  /** What a strategy tells the battery to do for one time step. */
  datatype Action = Charge | Discharge | Idle

  /** Default thresholds, in the price series' unit (EUR/MWh). */
  const DefaultLow: real := 25.0
  const DefaultHigh: real := 80.0

  /** Charge below `low`, otherwise discharge above `high`, otherwise idle.
      The charge test is made first, so it wins when the thresholds cross. */
  function SimpleThreshold(price: real, low: real := DefaultLow, high: real := DefaultHigh): (a: Action)
    ensures a == Charge <==> price < low
    ensures a == Discharge <==> low <= price && high < price
    ensures a == Idle <==> low <= price && price <= high
  {
    if price < low then Charge
    else if price > high then Discharge
    else Idle
  }

  /** With ordered thresholds the idle band is exactly the closed interval [low, high]. */
  lemma IdleBand(price: real, low: real, high: real)
    requires low <= high
    ensures SimpleThreshold(price, low, high) == Idle <==> low <= price <= high
    ensures SimpleThreshold(price, low, high) == Charge <==> price < low
    ensures SimpleThreshold(price, low, high) == Discharge <==> high < price
  {
  }

  /** With crossed thresholds a price below `low` charges even when it is above `high`,
      and nothing is ever idle. */
  lemma ChargeTakesPriority(price: real, low: real, high: real)
    requires high < low
    ensures high < price < low ==> SimpleThreshold(price, low, high) == Charge
    ensures SimpleThreshold(price, low, high) != Idle
  {
  }

  /** The rule is monotone in the price: a higher price never asks for a "lower" action
      (Charge before Idle before Discharge) when the thresholds are ordered. */
  function Rank(a: Action): nat
  {
    match a
    case Charge => 0
    case Idle => 1
    case Discharge => 2
  }

  lemma Monotone(p: real, q: real, low: real, high: real)
    requires low <= high && p <= q
    ensures Rank(SimpleThreshold(p, low, high)) <= Rank(SimpleThreshold(q, low, high))
  {
  }

  /** The default thresholds 25 and 80 at and around their boundaries. */
  lemma DefaultBoundaries()
    ensures SimpleThreshold(24.0) == Charge
    ensures SimpleThreshold(25.0) == Idle
    ensures SimpleThreshold(80.0) == Idle
    ensures SimpleThreshold(81.0) == Discharge
  {
  }
}
