/** The brute-force rolling-horizon strategy `optimization_based_strategy`
    (src/simulator.py): enumerate every action sequence over the forecast
    window in `itertools.product` order, simulate each on a shadow copy of the
    stored energy, keep the first one with the highest revenue, and return its
    first action. */
module HorizonSearch {
  import opened Strategy
  import opened BatteryModel

  datatype Option<T> = None | Some(value: T)

  /** Position of an action in the list ["charge", "discharge", "idle"] that
      the product is taken over. */
  function Digit(a: Action): (d: nat)
    ensures d < 3
  {
    match a
    case Charge => 0
    case Discharge => 1
    case Idle => 2
  }

  function Pow3(n: nat): (r: nat)
    ensures r >= 1
  {
    if n == 0 then 1 else 3 * Pow3(n - 1)
  }

  /** `[a] + s` for every `s` of `ss`, in order. */
  function Prefixed(a: Action, ss: seq<seq<Action>>): (r: seq<seq<Action>>)
    ensures |r| == |ss|
    ensures forall i {:trigger r[i]} :: 0 <= i < |ss| ==> r[i] == [a] + ss[i]
  {
    seq(|ss|, i requires 0 <= i < |ss| => [a] + ss[i])
  }

  /** `itertools.product([charge, discharge, idle], repeat=h)`: the first
      position varies slowest. There are 3^h sequences, each of length h. */
  function AllSequences(h: nat): (all: seq<seq<Action>>)
    ensures |all| == Pow3(h)
    ensures forall i :: 0 <= i < |all| ==> |all[i]| == h
  {
    if h == 0 then [[]]
    else
      var rest := AllSequences(h - 1);
      Prefixed(Charge, rest) + Prefixed(Discharge, rest) + Prefixed(Idle, rest)
  }

  /** d * p for a base-3 digit d, written without a product. */
  function Times(d: nat, p: nat): nat
    requires d < 3
  {
    if d == 0 then 0 else if d == 1 then p else p + p
  }

  /** The base-3 number whose digits, most significant first, are the
      positions of the actions of `s`. */
  function Ordinal(s: seq<Action>): nat
  {
    if s == [] then 0 else Times(Digit(s[0]), Pow3(|s| - 1)) + Ordinal(s[1..])
  }

  lemma {:induction false} OrdinalBound(s: seq<Action>)
    ensures Ordinal(s) < Pow3(|s|)
  {
    if s != [] {
      OrdinalBound(s[1..]);
    }
  }

  /** Strict lexicographic order over (charge, discharge, idle). */
  predicate LexBefore(s: seq<Action>, t: seq<Action>)
  {
    0 < |s| && 0 < |t| &&
    (Digit(s[0]) < Digit(t[0]) || (s[0] == t[0] && LexBefore(s[1..], t[1..])))
  }

  /** Among sequences of one length, a smaller ordinal is exactly an earlier
      place in lexicographic order. */
  lemma {:induction false} OrdinalIsLexOrder(s: seq<Action>, t: seq<Action>)
    requires |s| == |t|
    ensures Ordinal(s) < Ordinal(t) <==> LexBefore(s, t)
  {
    if s != [] {
      OrdinalBound(s[1..]);
      OrdinalBound(t[1..]);
      OrdinalIsLexOrder(s[1..], t[1..]);
      if Digit(s[0]) == Digit(t[0]) {
        DigitInjective(s[0], t[0]);
      }
    }
  }

  lemma DigitInjective(a: Action, b: Action)
    requires Digit(a) == Digit(b)
    ensures a == b
  {
  }

  /** The block structure of the product: the k-th third of the sequences of
      length h + 1 starts with the k-th action, followed by every sequence of
      length h in order. */
  lemma AllSequencesBlock(h: nat, k: nat, j: nat)
    requires k < 3 && j < Pow3(h)
    ensures Times(k, Pow3(h)) + j < Pow3(h + 1)
    ensures AllSequences(h + 1)[Times(k, Pow3(h)) + j] == [[Charge, Discharge, Idle][k]] + AllSequences(h)[j]
  {
    var rest := AllSequences(h);
    var a := [Charge, Discharge, Idle][k];
    var c, d, i := Prefixed(Charge, rest), Prefixed(Discharge, rest), Prefixed(Idle, rest);
    assert AllSequences(h + 1) == c + d + i;
    ThirdsAt(c, d, i, k, j);
    assert [c, d, i][k] == Prefixed(a, rest) by {
      if k == 0 {
      } else if k == 1 {
      } else {
      }
    }
  }

  /** Indexing the concatenation of three equally long sequences. */
  lemma ThirdsAt<T>(c: seq<T>, d: seq<T>, e: seq<T>, k: nat, j: nat)
    requires |c| == |d| == |e| && k < 3 && j < |c|
    ensures Times(k, |c|) + j < |c + d + e|
    ensures (c + d + e)[Times(k, |c|) + j] == [c, d, e][k][j]
  {
  }

  /** Every sequence of length h is enumerated, at the position given by its
      ordinal. */
  lemma {:induction false} EveryPlanEnumerated(s: seq<Action>)
    ensures Ordinal(s) < |AllSequences(|s|)|
    ensures AllSequences(|s|)[Ordinal(s)] == s
  {
    OrdinalBound(s);
    if s != [] {
      var t := s[1..];
      var h := |t|;
      EveryPlanEnumerated(t);
      var d := Digit(s[0]);
      assert |s| == h + 1;
      assert Ordinal(s) == Times(d, Pow3(h)) + Ordinal(t);
      AllSequencesBlock(h, d, Ordinal(t));
      assert AllSequences(|s|)[Ordinal(s)] == [[Charge, Discharge, Idle][d]] + AllSequences(h)[Ordinal(t)];
      assert [Charge, Discharge, Idle][d] == s[0];
      assert [s[0]] + t == s;
    }
  }

  /** The i-th enumerated sequence has ordinal i: so the enumeration is in
      strictly increasing lexicographic order and lists no sequence twice. */
  lemma EnumerationOrder(h: nat, i: nat, j: nat)
    requires i < j < Pow3(h)
    ensures LexBefore(AllSequences(h)[i], AllSequences(h)[j])
    ensures AllSequences(h)[i] != AllSequences(h)[j]
  {
    var s, t := AllSequences(h)[i], AllSequences(h)[j];
    assert s in AllSequences(h) && t in AllSequences(h);
    OrdinalOfEnumerated(h, i);
    OrdinalOfEnumerated(h, j);
    OrdinalIsLexOrder(s, t);
  }

  lemma {:induction false} OrdinalOfEnumerated(h: nat, i: nat)
    requires i < Pow3(h)
    ensures Ordinal(AllSequences(h)[i]) == i
  {
    if h > 0 {
      assert Pow3(h) == 3 * Pow3(h - 1);
      var k, j := Split(i, Pow3(h - 1));
      OrdinalOfEnumerated(h - 1, j);
      OrdinalOfBlock(h, k, j);
    }
  }

  /** The inductive step of `OrdinalOfEnumerated`: if the j-th sequence of
      length h - 1 has ordinal j, then the sequence at offset j of the k-th
      block of length h has ordinal k * 3^(h-1) + j. */
  lemma OrdinalOfBlock(h: nat, k: nat, j: nat)
    requires h > 0 && k < 3 && j < Pow3(h - 1)
    requires Ordinal(AllSequences(h - 1)[j]) == j
    ensures Times(k, Pow3(h - 1)) + j < Pow3(h)
    ensures Ordinal(AllSequences(h)[Times(k, Pow3(h - 1)) + j]) == Times(k, Pow3(h - 1)) + j
  {
    var rest := AllSequences(h - 1)[j];
    assert |rest| == h - 1;
    AllSequencesBlock(h - 1, k, j);
    OrdinalOfPrefixed(k, rest);
  }

  lemma OrdinalOfPrefixed(k: nat, rest: seq<Action>)
    requires k < 3
    ensures Ordinal([[Charge, Discharge, Idle][k]] + rest) == Times(k, Pow3(|rest|)) + Ordinal(rest)
  {
    var s := [[Charge, Discharge, Idle][k]] + rest;
    assert s[1..] == rest;
  }

  /** Splits a position of the product of length h + 1 into its block and its
      offset inside the block. */
  lemma Split(i: nat, p: nat) returns (k: nat, j: nat)
    requires 0 < p && i < 3 * p
    ensures k < 3 && j < p && i == Times(k, p) + j
  {
    if i < p {
      k, j := 0, i;
    } else if i < p + p {
      k, j := 1, i - p;
    } else {
      k, j := 2, i - p - p;
    }
  }

  /** One hour of the shadow simulation, exactly as the search writes it: the
      energy is clipped to the band before the efficiency is applied, so on
      discharge with efficiency < 1 the shadow energy may leave the band.
      Returns the new shadow energy and the revenue of the hour. */
  function ShadowStep(p: Params, soc: real, price: real, a: Action): (real, real)
    requires ValidParams(p)
  {
    if a == Charge && soc < Ceiling(p) then
      var energy := Min(p.power, Ceiling(p) - soc) * p.efficiency;
      (soc + energy, -(energy * price))
    else if a == Discharge && soc > Floor(p) then
      var energy := Min(p.power, soc - Floor(p)) / p.efficiency;
      (soc - energy, energy * price)
    else
      (soc, 0.0)
  }

  /** Revenue the search credits to `plan` over the forecast `prices`, starting
      from shadow energy `soc`. */
  function SequenceRevenue(p: Params, soc: real, prices: seq<real>, plan: seq<Action>): real
    requires ValidParams(p) && |prices| == |plan|
    decreases |plan|
  {
    if plan == [] then 0.0
    else
      var (soc', revenue) := ShadowStep(p, soc, prices[0], plan[0]);
      revenue + SequenceRevenue(p, soc', prices[1..], plan[1..])
  }

  /** The charging hour of the shadow simulation, for a given clipped energy. */
  lemma ShadowChargeHour(p: Params, soc: real, price: real, energy: real)
    requires ValidParams(p) && soc < Ceiling(p)
    requires energy == Min(p.power, Ceiling(p) - soc) * p.efficiency
    ensures ShadowStep(p, soc, price, Charge).0 == soc + energy
    ensures ShadowStep(p, soc, price, Charge).1 == -(energy * price)
  {
  }

  /** The discharging hour of the shadow simulation, for a given clipped energy. */
  lemma ShadowDischargeHour(p: Params, soc: real, price: real, energy: real)
    requires ValidParams(p) && soc > Floor(p)
    requires energy == Min(p.power, soc - Floor(p)) / p.efficiency
    ensures ShadowStep(p, soc, price, Discharge).0 == soc - energy
    ensures ShadowStep(p, soc, price, Discharge).1 == energy * price
  {
  }

  /** An hour in which the shadow simulation does nothing. */
  lemma ShadowIdleHour(p: Params, soc: real, price: real, a: Action)
    requires ValidParams(p)
    requires !(a == Charge && soc < Ceiling(p)) && !(a == Discharge && soc > Floor(p))
    ensures ShadowStep(p, soc, price, a).0 == soc
    ensures ShadowStep(p, soc, price, a).1 == 0.0
  {
  }

  /** The first hour of a plan and the rest of it. */
  lemma RevenueUnfold(p: Params, soc: real, prices: seq<real>, plan: seq<Action>)
    requires ValidParams(p) && |prices| == |plan| > 0
    ensures SequenceRevenue(p, soc, prices, plan) ==
      ShadowStep(p, soc, prices[0], plan[0]).1 +
      SequenceRevenue(p, ShadowStep(p, soc, prices[0], plan[0]).0, prices[1..], plan[1..])
  {
  }

  /** The revenues of `plans`, in order. */
  function RevenuesOf(p: Params, soc: real, window: seq<real>, plans: seq<seq<Action>>): (revs: seq<real>)
    requires ValidParams(p) && forall i :: 0 <= i < |plans| ==> |plans[i]| == |window|
    ensures |revs| == |plans|
  {
    if plans == [] then []
    else [SequenceRevenue(p, soc, window, plans[0])] + RevenuesOf(p, soc, window, plans[1..])
  }

  lemma {:induction false} RevenuesOfAt(p: Params, soc: real, window: seq<real>, plans: seq<seq<Action>>, k: nat)
    requires ValidParams(p) && forall i :: 0 <= i < |plans| ==> |plans[i]| == |window|
    requires k < |plans|
    ensures RevenuesOf(p, soc, window, plans)[k] == SequenceRevenue(p, soc, window, plans[k])
    decreases k
  {
    if k > 0 {
      RevenuesOfAt(p, soc, window, plans[1..], k - 1);
    }
  }

  /** The revenues of all enumerated sequences, in enumeration order. */
  function Revenues(p: Params, soc: real, window: seq<real>): (revs: seq<real>)
    requires ValidParams(p)
    ensures |revs| == Pow3(|window|)
  {
    RevenuesOf(p, soc, window, AllSequences(|window|))
  }

  /** The k-th revenue is the revenue of the k-th enumerated sequence. */
  lemma RevenueAt(p: Params, soc: real, window: seq<real>, k: nat)
    requires ValidParams(p) && k < Pow3(|window|)
    ensures Revenues(p, soc, window)[k] == SequenceRevenue(p, soc, window, AllSequences(|window|)[k])
  {
    RevenuesOfAt(p, soc, window, AllSequences(|window|), k);
  }

  /** The index the strict `>` scan settles on among the first n revenues: a
      maximum, and the first one. */
  function BestPrefix(revs: seq<real>, n: nat): (k: nat)
    requires 1 <= n <= |revs|
    ensures k < n
    ensures forall j :: 0 <= j < n ==> revs[j] <= revs[k]
    ensures forall j :: 0 <= j < k ==> revs[j] < revs[k]
  {
    if n == 1 then 0
    else
      var b := BestPrefix(revs, n - 1);
      if revs[n - 1] > revs[b] then n - 1 else b
  }

  /** The sequence the search settles on. */
  function BestPlan(p: Params, soc: real, window: seq<real>): seq<Action>
    requires ValidParams(p) && |window| >= 1
  {
    var all := AllSequences(|window|);
    all[BestPrefix(Revenues(p, soc, window), |all|)]
  }

  /** What the search returns: the first action of the best sequence. */
  function Decide(p: Params, soc: real, window: seq<real>): Action
    requires ValidParams(p) && |window| >= 1
  {
    var plan := BestPlan(p, soc, window);
    assert plan in AllSequences(|window|);
    plan[0]
  }

  /** One pass of the inner loop's body: the shadow energy and the running
      revenue after playing `action` at `price`, reading the battery's ratings. */
  method ShadowHour(battery: Battery, soc: real, revenue: real, price: real, action: Action)
    returns (soc': real, revenue': real)
    requires ValidParams(battery.Ratings())
    ensures soc' == ShadowStep(battery.Ratings(), soc, price, action).0
    ensures revenue' == revenue + ShadowStep(battery.Ratings(), soc, price, action).1
  {
    ghost var p := battery.Ratings();
    assert Ceiling(p) == battery.capacity * battery.socMax && Floor(p) == battery.capacity * battery.socMin;
    soc', revenue' := soc, revenue;
    if action == Charge && soc' < battery.capacity * battery.socMax {
      var energy := Min(battery.power, battery.capacity * battery.socMax - soc');
      energy := energy * battery.efficiency;
      ShadowChargeHour(p, soc', price, energy);
      soc' := soc' + energy;
      revenue' := revenue' - energy * price;
    } else if action == Discharge && soc' > battery.capacity * battery.socMin {
      var energy := Min(battery.power, soc' - battery.capacity * battery.socMin);
      energy := energy / battery.efficiency;
      ShadowDischargeHour(p, soc', price, energy);
      soc' := soc' - energy;
      revenue' := revenue' + energy * price;
    } else {
      ShadowIdleHour(p, soc', price, action);
    }
  }

  /** The inner loop of the search: one candidate sequence played on a shadow
      copy of the stored energy, accumulating its revenue. */
  method SimulateSequence(window: seq<real>, sequence: seq<Action>, battery: Battery) returns (revenue: real)
    requires ValidParams(battery.Ratings()) && |sequence| == |window|
    ensures revenue == SequenceRevenue(battery.Ratings(), battery.soc, window, sequence)
  {
    ghost var p := battery.Ratings();
    var soc := battery.GetSoc() * battery.capacity;
    revenue := 0.0;
    var i := 0;
    while i < |sequence|
      invariant 0 <= i <= |sequence|
      invariant revenue + SequenceRevenue(p, soc, window[i..], sequence[i..])
        == SequenceRevenue(p, battery.soc, window, sequence)
    {
      RevenueUnfold(p, soc, window[i..], sequence[i..]);
      soc, revenue := ShadowHour(battery, soc, revenue, window[i], sequence[i]);
      assert window[i..][1..] == window[i + 1..];
      assert sequence[i..][1..] == sequence[i + 1..];
      i := i + 1;
    }
  }

  /** The search over a window of H forecast prices. It reads the battery's
      ratings and stored energy and changes nothing: there is no modifies
      clause. */
  method OptimizationBasedStrategy(window: seq<real>, battery: Battery) returns (action: Action)
    requires ValidParams(battery.Ratings()) && |window| >= 1
    ensures action == Decide(battery.Ratings(), battery.soc, window)
  {
    ghost var p := battery.Ratings();
    ghost var revs := Revenues(p, battery.soc, window);
    var allSequences := AllSequences(|window|);
    var bestSequence: Option<seq<Action>> := None;
    var bestRevenue := 0.0;  // stands for minus infinity while bestSequence is None
    ghost var bestIndex := 0;
    var k := 0;
    while k < |allSequences|
      invariant 0 <= k <= |allSequences|
      invariant bestSequence.None? <==> k == 0
      invariant k > 0 ==>
        bestIndex == BestPrefix(revs, k) &&
        bestSequence == Some(allSequences[bestIndex]) &&
        bestRevenue == revs[bestIndex]
    {
      var sequence := allSequences[k];
      assert sequence in allSequences;
      var revenue := SimulateSequence(window, sequence, battery);
      RevenueAt(p, battery.soc, window, k);
      assert revenue == revs[k];
      assert BestPrefix(revs, k + 1) == if k == 0 || revs[k] > revs[bestIndex] then k else bestIndex;
      if bestSequence.None? || revenue > bestRevenue {
        bestRevenue := revenue;
        bestSequence := Some(sequence);
        bestIndex := k;
      }
      k := k + 1;
    }
    assert bestSequence.value in allSequences;
    action := bestSequence.value[0];
  }

  /** No sequence of the window's length, enumerated or not, earns more than
      the chosen one; every sequence enumerated before it, that is every
      lexicographically earlier one, earns strictly less. */
  lemma BestPlanOptimal(p: Params, soc: real, window: seq<real>, other: seq<Action>)
    requires ValidParams(p) && |window| >= 1 && |other| == |window|
    ensures |BestPlan(p, soc, window)| == |window|
    ensures SequenceRevenue(p, soc, window, other) <= SequenceRevenue(p, soc, window, BestPlan(p, soc, window))
    ensures LexBefore(other, BestPlan(p, soc, window)) ==>
      SequenceRevenue(p, soc, window, other) < SequenceRevenue(p, soc, window, BestPlan(p, soc, window))
  {
    var all := AllSequences(|window|);
    var revs := Revenues(p, soc, window);
    var b := BestPrefix(revs, |all|);
    assert all[b] in all;
    EveryPlanEnumerated(other);
    var o := Ordinal(other);
    assert all[o] == other;
    RevenueAt(p, soc, window, o);
    RevenueAt(p, soc, window, b);
    OrdinalOfEnumerated(|window|, b);
    OrdinalIsLexOrder(other, all[b]);
  }

  /** Idling for the whole window earns nothing. */
  lemma {:induction false} IdleEarnsNothing(p: Params, soc: real, prices: seq<real>, plan: seq<Action>)
    requires ValidParams(p) && |prices| == |plan|
    requires forall i :: 0 <= i < |plan| ==> plan[i] == Idle
    ensures SequenceRevenue(p, soc, prices, plan) == 0.0
  {
    if plan != [] {
      IdleEarnsNothing(p, soc, prices[1..], plan[1..]);
    }
  }

  /** The chosen sequence never loses money: the all-idle sequence is always
      among the candidates and earns zero. */
  lemma BestPlanNonNegative(p: Params, soc: real, window: seq<real>)
    requires ValidParams(p) && |window| >= 1
    ensures SequenceRevenue(p, soc, window, BestPlan(p, soc, window)) >= 0.0
  {
    var idle := seq(|window|, i => Idle);
    IdleEarnsNothing(p, soc, window, idle);
    BestPlanOptimal(p, soc, window, idle);
  }

  /** Shadow charging from inside the band never passes the ceiling. */
  lemma ShadowChargeBelowCeiling(p: Params, soc: real, price: real)
    requires ValidParams(p) && soc <= Ceiling(p)
    ensures ShadowStep(p, soc, price, Charge).0 <= Ceiling(p)
    ensures soc <= ShadowStep(p, soc, price, Charge).0
  {
    if soc < Ceiling(p) {
      var m := Min(p.power, Ceiling(p) - soc);
      ProductNonNegative(m, 1.0 - p.efficiency);
      ProductNonNegative(m, p.efficiency);
      assert m * p.efficiency == m - m * (1.0 - p.efficiency);
    }
  }

  /** With a lossless battery the shadow step is the battery's own one-hour
      charge or discharge at full rated power: the same new stored energy, and
      the same cash flow as the simulation loop books for it (paying for the
      energy stored, earning for the energy delivered). */
  lemma ShadowMatchesBatteryWhenLossless(p: Params, soc: real, price: real)
    requires ValidParams(p) && p.efficiency == 1.0 && InBand(p, soc)
    ensures ShadowStep(p, soc, price, Charge).0 == soc + ChargedEnergy(p, soc, p.power, 1.0)
    ensures ShadowStep(p, soc, price, Discharge).0 == soc - DrawnEnergy(p, soc, p.power, 1.0)
    ensures ShadowStep(p, soc, price, Charge).1 == -ChargedEnergy(p, soc, p.power, 1.0) * price
    ensures ShadowStep(p, soc, price, Discharge).1 == DrawnEnergy(p, soc, p.power, 1.0) * p.efficiency * price
  {
  }

  /** With losses the shadow discharge can overshoot the floor: a battery of
      100 kWh, 50 kW, efficiency 0.5 and band [10, 90] kWh, holding 30 kWh,
      is shadow-discharged to -10 kWh. */
  lemma ShadowDischargeCanLeaveBand(price: real)
    ensures var p := Params(100.0, 50.0, 0.5, 0.1, 0.9);
      ValidParams(p) && InBand(p, 30.0) && ShadowStep(p, 30.0, price, Discharge).0 == -10.0
  {
  }

  /** The nine two-hour sequences in product order. The length is a parameter
      equal to 2 rather than the literal 2, so that the verifier does not
      evaluate the whole product on a literal argument. */
  lemma TwoHourEnumeration(h: nat)
    requires h == 2
    ensures AllSequences(h)[0] == [Charge, Charge]
    ensures AllSequences(h)[1] == [Charge, Discharge]
    ensures AllSequences(h)[2] == [Charge, Idle]
    ensures AllSequences(h)[3] == [Discharge, Charge]
    ensures AllSequences(h)[4] == [Discharge, Discharge]
    ensures AllSequences(h)[5] == [Discharge, Idle]
    ensures AllSequences(h)[6] == [Idle, Charge]
    ensures AllSequences(h)[7] == [Idle, Discharge]
    ensures AllSequences(h)[8] == [Idle, Idle]
  {
    var zero: seq<seq<Action>> := [[]];
    assert AllSequences(h - 1) == Prefixed(Charge, zero) + Prefixed(Discharge, zero) + Prefixed(Idle, zero);
    PrefixedOne(Charge);
    PrefixedOne(Discharge);
    PrefixedOne(Idle);
    var one := [[Charge], [Discharge], [Idle]];
    assert AllSequences(h) == Prefixed(Charge, one) + Prefixed(Discharge, one) + Prefixed(Idle, one);
    PrefixedTwo(Charge);
    PrefixedTwo(Discharge);
    PrefixedTwo(Idle);
    assert AllSequences(h) == [
      [Charge, Charge], [Charge, Discharge], [Charge, Idle],
      [Discharge, Charge], [Discharge, Discharge], [Discharge, Idle],
      [Idle, Charge], [Idle, Discharge], [Idle, Idle]];
  }

  lemma PrefixedOne(a: Action)
    ensures Prefixed(a, [[]]) == [[a]]
  {
    var r := Prefixed(a, [[]]);
    assert |r| == 1;
    assert r[0] == [a] + [] == [a];
  }

  lemma PrefixedTwo(a: Action)
    ensures Prefixed(a, [[Charge], [Discharge], [Idle]]) == [[a, Charge], [a, Discharge], [a, Idle]]
  {
    var r := Prefixed(a, [[Charge], [Discharge], [Idle]]);
    assert |r| == 3;
    assert r[0] == [a] + [Charge] == [a, Charge];
    assert r[1] == [a] + [Discharge] == [a, Discharge];
    assert r[2] == [a] + [Idle] == [a, Idle];
  }

  /** A two-hour sequence earns its first hour's revenue plus its second's. */
  lemma TwoHourRevenue(p: Params, soc: real, w: seq<real>, a: Action, b: Action)
    requires ValidParams(p) && |w| == 2
    ensures var first := ShadowStep(p, soc, w[0], a);
      SequenceRevenue(p, soc, w, [a, b]) == first.1 + ShadowStep(p, first.0, w[1], b).1
  {
    RevenueUnfold(p, soc, w, [a, b]);
    var first := ShadowStep(p, soc, w[0], a);
    RevenueUnfold(p, first.0, w[1..], [b]);
    assert [a, b][1..] == [b];
  }

  /** The example's battery (100 kWh, 50 kW, efficiency 1, band [0, 100] kWh)
      and window (price 10, then 100). */
  const ExampleBattery := Params(100.0, 50.0, 1.0, 0.0, 1.0)
  const ExampleWindow := [10.0, 100.0]

  /** The example's setting stated field by field. The main lemma takes its
      battery and window through this predicate rather than as the constants,
      so that the verifier does not evaluate the whole search on literals. */
  predicate ExampleSetting(p: Params, w: seq<real>)
  {
    p.capacity == 100.0 && p.power == 50.0 && p.efficiency == 1.0 && p.socMin == 0.0 && p.socMax == 1.0 &&
    |w| == 2 && w[0] == 10.0 && w[1] == 100.0
  }

  /** With the example battery holding 50 kWh over the example window,
      idle-then-discharge earns 5000, more than charge-then-discharge (4500),
      so the search settles on it and answers Idle. */
  lemma TwoHourExample(p: Params, w: seq<real>)
    requires ExampleSetting(p, w)
    ensures ValidParams(p) && |w| == 2
    ensures BestPlan(p, 50.0, w) == [Idle, Discharge]
    ensures Decide(p, 50.0, w) == Idle
  {
    ExampleWinnerUnique(p, w);
    UniqueWinnerChosen(p, 50.0, w, [Idle, Discharge], 5000.0);
  }

  /** Over the example window idle-then-discharge reaches 5000, and no other
      sequence does. */
  lemma ExampleWinnerUnique(p: Params, w: seq<real>)
    requires ExampleSetting(p, w)
    ensures ValidParams(p) && |w| == 2
    ensures SequenceRevenue(p, 50.0, w, [Idle, Discharge]) >= 5000.0
    ensures forall t :: |t| == |w| && SequenceRevenue(p, 50.0, w, t) >= 5000.0 ==> t == [Idle, Discharge]
  {
    ExampleWinnerReaches(p, w);
    forall t | |t| == |w| && SequenceRevenue(p, 50.0, w, t) >= 5000.0
      ensures t == [Idle, Discharge]
    {
      ExampleWinnerAt(p, w, t);
    }
  }

  /** Over the example window idle-then-discharge earns 5000. */
  lemma ExampleWinnerReaches(p: Params, w: seq<real>)
    requires ExampleSetting(p, w)
    ensures ValidParams(p) && |w| == 2
    ensures SequenceRevenue(p, 50.0, w, [Idle, Discharge]) >= 5000.0
  {
    ExampleIsConstant(p, w, [Idle, Discharge]);
    ExampleIdleDischargeEarns();
  }

  /** Idle-then-discharge earns 5000 on the example constants. */
  lemma ExampleIdleDischargeEarns()
    ensures SequenceRevenue(ExampleBattery, 50.0, ExampleWindow, [Idle, Discharge]) == 5000.0
  {
    ExampleFromIdle(Discharge);
  }

  /** A two-hour sequence that earns 5000 over the example window is
      idle-then-discharge. */
  lemma ExampleWinnerAt(p: Params, w: seq<real>, t: seq<Action>)
    requires ExampleSetting(p, w) && |t| == 2
    requires ValidParams(p) && SequenceRevenue(p, 50.0, w, t) >= 5000.0
    ensures t == [Idle, Discharge]
  {
    ExampleIsConstant(p, w, t);
    ExampleOnlyWinner(t);
  }

  /** The field-by-field setting is the constants' one. */
  lemma ExampleIsConstant(p: Params, w: seq<real>, t: seq<Action>)
    requires ExampleSetting(p, w)
    ensures ValidParams(p)
    ensures |t| == 2 ==> SequenceRevenue(p, 50.0, w, t) == SequenceRevenue(ExampleBattery, 50.0, ExampleWindow, t)
  {
    assert p == ExampleBattery;
    assert w == [w[0], w[1]] == ExampleWindow;
  }

  /** A sequence that alone reaches some revenue is the one the search settles on. */
  lemma UniqueWinnerChosen(p: Params, soc: real, window: seq<real>, s: seq<Action>, bound: real)
    requires ValidParams(p) && |window| >= 1 && |s| == |window|
    requires SequenceRevenue(p, soc, window, s) >= bound
    requires forall t :: |t| == |window| && SequenceRevenue(p, soc, window, t) >= bound ==> t == s
    ensures BestPlan(p, soc, window) == s
    ensures Decide(p, soc, window) == s[0]
  {
    BestPlanOptimal(p, soc, window, s);
  }

  /** Idle-then-discharge is the only two-hour sequence of the example that
      earns 5000 or more. */
  lemma ExampleOnlyWinner(s: seq<Action>)
    requires |s| == 2 && SequenceRevenue(ExampleBattery, 50.0, ExampleWindow, s) >= 5000.0
    ensures s == [Idle, Discharge]
  {
    assert s == [s[0], s[1]];
    ExampleFromCharge(s[1]);
    ExampleFromDischarge(s[1]);
    ExampleFromIdle(s[1]);
  }

  /** Bounds the revenue of a two-hour sequence from its two hours. */
  lemma TwoHourBound(p: Params, soc: real, x: real, y: real, a: Action, b: Action, soc1: real, r1: real, lo: real, hi: real)
    requires ValidParams(p)
    requires ShadowStep(p, soc, x, a).0 == soc1 && ShadowStep(p, soc, x, a).1 == r1
    requires lo <= ShadowStep(p, soc1, y, b).1 <= hi
    ensures r1 + lo <= SequenceRevenue(p, soc, [x, y], [a, b]) <= r1 + hi
  {
    TwoHourRevenue(p, soc, [x, y], a, b);
  }

  /** The example's first hour, at price 10 from 50 kWh: charging buys 50 kWh
      for 500, discharging sells 50 kWh for 500, idling keeps 50 kWh. */
  lemma ExampleFirstHour(a: Action)
    ensures a == Charge ==> ShadowStep(ExampleBattery, 50.0, 10.0, a) == (100.0, -500.0)
    ensures a == Discharge ==> ShadowStep(ExampleBattery, 50.0, 10.0, a) == (0.0, 500.0)
    ensures a == Idle ==> ShadowStep(ExampleBattery, 50.0, 10.0, a) == (50.0, 0.0)
  {
  }

  /** The example's second hour, at price 100, from a full battery: at most
      the 5000 of selling 50 kWh. */
  lemma ExampleSecondHourFull(b: Action)
    ensures 0.0 <= ShadowStep(ExampleBattery, 100.0, 100.0, b).1 <= 5000.0
  {
  }

  /** The example's second hour, at price 100, from an empty battery: nothing
      to sell, and buying costs 5000. */
  lemma ExampleSecondHourEmpty(b: Action)
    ensures -5000.0 <= ShadowStep(ExampleBattery, 0.0, 100.0, b).1 <= 0.0
  {
  }

  /** The example's second hour, at price 100, from 50 kWh: selling them earns
      5000, anything else earns nothing or pays. */
  lemma ExampleSecondHourHalf(b: Action)
    ensures b == Discharge ==> ShadowStep(ExampleBattery, 50.0, 100.0, b).1 == 5000.0
    ensures b != Discharge ==> -5000.0 <= ShadowStep(ExampleBattery, 50.0, 100.0, b).1 <= 0.0
  {
  }

  /** Charging first costs 500 and fills the battery, after which the best
      second hour sells 50 kWh for 5000. */
  lemma ExampleFromCharge(b: Action)
    ensures SequenceRevenue(ExampleBattery, 50.0, ExampleWindow, [Charge, b]) <= 4500.0
  {
    ExampleFirstHour(Charge);
    ExampleSecondHourFull(b);
    TwoHourBound(ExampleBattery, 50.0, 10.0, 100.0, Charge, b, 100.0, -500.0, 0.0, 5000.0);
  }

  /** Discharging first earns 500 and empties the battery, after which
      nothing more can be earned. */
  lemma ExampleFromDischarge(b: Action)
    ensures SequenceRevenue(ExampleBattery, 50.0, ExampleWindow, [Discharge, b]) <= 500.0
  {
    ExampleFirstHour(Discharge);
    ExampleSecondHourEmpty(b);
    TwoHourBound(ExampleBattery, 50.0, 10.0, 100.0, Discharge, b, 0.0, 500.0, -5000.0, 0.0);
  }

  /** Idling first keeps 50 kWh, which the second hour sells for 5000;
      any other second hour earns nothing or pays. */
  lemma ExampleFromIdle(b: Action)
    ensures b == Discharge ==> SequenceRevenue(ExampleBattery, 50.0, ExampleWindow, [Idle, b]) == 5000.0
    ensures b != Discharge ==> SequenceRevenue(ExampleBattery, 50.0, ExampleWindow, [Idle, b]) <= 0.0
  {
    ExampleFirstHour(Idle);
    ExampleSecondHourHalf(b);
    if b == Discharge {
      TwoHourBound(ExampleBattery, 50.0, 10.0, 100.0, Idle, b, 50.0, 0.0, 5000.0, 5000.0);
    } else {
      TwoHourBound(ExampleBattery, 50.0, 10.0, 100.0, Idle, b, 50.0, 0.0, -5000.0, 0.0);
    }
  }
}
