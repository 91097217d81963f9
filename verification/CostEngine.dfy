/**
 Pricing one final attempt: the provider's unit quantities, a rate for each, a status and an amount.

 A quantity map is kept in insertion order, as the program iterates it; what is proved about it
 does not depend on that order. Quantities and prices are exact; amounts are recorded in whole
 micro-units.
 */
module CostEngine {
  import opened Wrappers
  import opened RateCards
  import opened RateCardAdmin
  import opened RateCardImport

  datatype Item = Item(unit: string, quantity: real)

  type Quantities = seq<Item>

  predicate HasUnit(m: Quantities, u: string) {
    exists i :: 0 <= i < |m| && m[i].unit == u
  }

  lemma HasUnitCons(m: Quantities, u: string)
    requires m != []
    ensures HasUnit(m, u) <==> m[0].unit == u || HasUnit(m[1..], u)
  {
    if HasUnit(m[1..], u) {
      var i :| 0 <= i < |m[1..]| && m[1..][i].unit == u;
      assert m[i + 1].unit == u;
    }
    forall i | 0 < i < |m| && m[i].unit == u ensures HasUnit(m[1..], u) {
      assert m[1..][i - 1].unit == u;
    }
  }

  predicate DistinctUnits(m: Quantities) {
    forall i, j :: 0 <= i < j < |m| ==> m[i].unit != m[j].unit
  }

  /** The quantity stored for a unit, zero when there is none. */
  function Get(m: Quantities, u: string): real {
    if m == [] then 0.0
    else if m[0].unit == u then m[0].quantity
    else Get(m[1..], u)
  }

  /** `m[u] = m.get(u, 0) + q`. */
  function Add(m: Quantities, u: string, q: real): Quantities {
    if m == [] then [Item(u, q)]
    else if m[0].unit == u then [Item(u, m[0].quantity + q)] + m[1..]
    else [m[0]] + Add(m[1..], u, q)
  }

  function Sum(m: Quantities): real {
    if m == [] then 0.0 else m[0].quantity + Sum(m[1..])
  }

  lemma {:induction false} AddMeaning(m: Quantities, u: string, q: real, v: string)
    ensures Get(Add(m, u, q), v) == Get(m, v) + if u == v then q else 0.0
    ensures Sum(Add(m, u, q)) == Sum(m) + q
    decreases |m|
  {
    if m != [] {
      AddMeaning(m[1..], u, q, v);
      var r := Add(m, u, q);
      assert r[1..] == if m[0].unit == u then m[1..] else Add(m[1..], u, q);
    }
  }

  lemma {:induction false} AddKeepsDistinct(m: Quantities, u: string, q: real)
    requires DistinctUnits(m)
    ensures DistinctUnits(Add(m, u, q))
    ensures forall i :: 0 <= i < |Add(m, u, q)| ==> Add(m, u, q)[i].unit == u || HasUnit(m, Add(m, u, q)[i].unit)
    decreases |m|
  {
    if m != [] {
      var r, rest := Add(m, u, q), Add(m[1..], u, q);
      AddKeepsDistinct(m[1..], u, q);
      if m[0].unit == u {
        forall i | 0 <= i < |r| ensures r[i].unit == m[i].unit {
        }
      } else {
        forall i | 1 <= i < |r| ensures r[i].unit != m[0].unit && (r[i].unit == u || HasUnit(m, r[i].unit)) {
          assert r[i] == rest[i - 1];
          HasUnitCons(m, r[i].unit);
          assert !HasUnit(m[1..], m[0].unit);
        }
        assert HasUnit(m, m[0].unit);
        forall i, j | 0 <= i < j < |r| ensures r[i].unit != r[j].unit {
          if i > 0 {
            assert r[i] == rest[i - 1] && r[j] == rest[j - 1];
          }
        }
      }
    }
  }

  // ----- quantities -----

  const INPUT := "input_token"
  const OUTPUT := "output_token"
  const REASONING := "reasoning_token"

  datatype ReasoningBilling = FoldIntoOutput | SeparateIfRated

  datatype Strategy = Strategy(emitted: set<string>, reasoning: ReasoningBilling)

  predicate NeedsReasoningRate(s: Strategy, reasoningTokens: int) {
    reasoningTokens > 0 && s.reasoning.SeparateIfRated?
  }

  /** The counters of the units this provider bills. */
  function Emitted(s: Strategy, counts: Quantities): Quantities {
    if counts == [] then []
    else (if counts[0].unit in s.emitted then [counts[0]] else []) + Emitted(s, counts[1..])
  }

  lemma {:induction false} EmittedMeaning(s: Strategy, counts: Quantities, u: string)
    requires DistinctUnits(counts)
    ensures DistinctUnits(Emitted(s, counts))
    ensures forall i :: 0 <= i < |Emitted(s, counts)| ==> HasUnit(counts, Emitted(s, counts)[i].unit)
    ensures Get(Emitted(s, counts), u) == if u in s.emitted then Get(counts, u) else 0.0
    decreases |counts|
  {
    if counts != [] {
      var rest, c := Emitted(s, counts[1..]), counts[0];
      EmittedMeaning(s, counts[1..], u);
      HasUnitCons(counts, c.unit);
      forall i | 0 <= i < |rest| ensures HasUnit(counts, rest[i].unit) && rest[i].unit != c.unit {
        HasUnitCons(counts, rest[i].unit);
        assert !HasUnit(counts[1..], c.unit);
      }
      if c.unit in s.emitted {
        assert Emitted(s, counts) == [c] + rest && ([c] + rest)[1..] == rest;
      } else {
        assert Emitted(s, counts) == [] + rest == rest;
      }
    }
  }

  /** Where reasoning tokens are billed. */
  function FoldTarget(s: Strategy, rated: bool): string {
    if s.reasoning.SeparateIfRated? && rated then REASONING else OUTPUT
  }

  function WithReasoning(m: Quantities, s: Strategy, reasoningTokens: int, rated: bool): Quantities {
    if reasoningTokens > 0 then Add(m, FoldTarget(s, rated), reasoningTokens as real) else m
  }

  function AddAll(m: Quantities, more: Quantities): Quantities {
    if more == [] then m
    else Add(AddAll(m, more[..|more| - 1]), more[|more| - 1].unit, more[|more| - 1].quantity)
  }

  function QuantitiesOf(s: Strategy, counts: Quantities, reasoningTokens: int, billable: Quantities,
      rated: bool): Quantities
  {
    AddAll(WithReasoning(Emitted(s, counts), s, reasoningTokens, rated), billable)
  }

  /** Maps the event's counters to priceable quantities. */
  method ComputeQuantities(s: Strategy, counts: Quantities, reasoningTokens: int, billable: Quantities, rated: bool)
      returns (m: Quantities)
    ensures m == QuantitiesOf(s, counts, reasoningTokens, billable, rated)
  {
    m := Emitted(s, counts);
    if reasoningTokens > 0 {
      m := Add(m, FoldTarget(s, rated), reasoningTokens as real);
    }
    ghost var base := m;
    var i := 0;
    while i < |billable|
      invariant 0 <= i <= |billable|
      invariant m == AddAll(base, billable[..i])
    {
      assert billable[..i + 1][..i] == billable[..i];
      m := Add(m, billable[i].unit, billable[i].quantity);
      i := i + 1;
    }
    assert billable[..i] == billable;
  }

  lemma {:induction false} SumConcat(a: Quantities, b: Quantities)
    ensures Sum(a + b) == Sum(a) + Sum(b)
    decreases |a|
  {
    if a == [] {
      assert a + b == b;
    } else {
      assert (a + b)[1..] == a[1..] + b;
      SumConcat(a[1..], b);
    }
  }

  lemma {:induction false} AddAllMeaning(m: Quantities, more: Quantities, u: string)
    requires DistinctUnits(m) && DistinctUnits(more)
    ensures DistinctUnits(AddAll(m, more))
    ensures Get(AddAll(m, more), u) == Get(m, u) + Get(more, u)
    ensures Sum(AddAll(m, more)) == Sum(m) + Sum(more)
    decreases |more|
  {
    if more != [] {
      var init, last := more[..|more| - 1], more[|more| - 1];
      AddAllMeaning(m, init, u);
      AddMeaning(AddAll(m, init), last.unit, last.quantity, u);
      AddKeepsDistinct(AddAll(m, init), last.unit, last.quantity);
      assert more == init + [last] && [last][1..] == [];
      SumConcat(init, [last]);
      GetConcat(init, [last], u);
    }
  }

  lemma {:induction false} GetConcat(a: Quantities, b: Quantities, u: string)
    ensures Get(a + b, u) == if HasUnit(a, u) then Get(a, u) else Get(b, u)
    ensures !HasUnit(a, u) ==> Get(a, u) == 0.0
    decreases |a|
  {
    if a == [] {
      assert a + b == b;
    } else {
      assert (a + b)[0] == a[0] && (a + b)[1..] == a[1..] + b;
      GetConcat(a[1..], b, u);
      HasUnitCons(a, u);
    }
  }

  /**
   What a quantity map holds: unit by unit the emitted counter, the reasoning tokens, and the billable
   units; in total nothing lost and nothing counted twice. Reasoning is a unit of its own exactly when the
   provider bills it separately and has a rate for it, and is output otherwise.
   */
  lemma QuantitiesMeaning(s: Strategy, counts: Quantities, reasoningTokens: int, billable: Quantities, rated: bool,
      u: string)
    requires DistinctUnits(counts) && DistinctUnits(billable)
    ensures var m := QuantitiesOf(s, counts, reasoningTokens, billable, rated);
      && DistinctUnits(m)
      && Get(m, u) == (if u in s.emitted then Get(counts, u) else 0.0)
                      + (if u == "reasoning_token" && s.reasoning.SeparateIfRated? && rated && reasoningTokens > 0
                         then reasoningTokens as real else 0.0)
                      + (if u == "output_token" && !(s.reasoning.SeparateIfRated? && rated) && reasoningTokens > 0
                         then reasoningTokens as real else 0.0)
                      + Get(billable, u)
      && Sum(m) ==
         Sum(Emitted(s, counts)) + (if reasoningTokens > 0 then reasoningTokens as real else 0.0) + Sum(billable)
  {
    var emitted := Emitted(s, counts);
    EmittedMeaning(s, counts, u);
    if reasoningTokens > 0 {
      AddMeaning(emitted, FoldTarget(s, rated), reasoningTokens as real, u);
      AddKeepsDistinct(emitted, FoldTarget(s, rated), reasoningTokens as real);
    }
    AddAllMeaning(WithReasoning(emitted, s, reasoningTokens, rated), billable, u);
  }

  // ----- rounding -----

  /** Rounds a number of micro-units to the nearest whole one, halves to even. */
  function RoundHalfEven(x: real): int {
    var below := x.Floor;
    var rest := x - below as real;
    if rest < 0.5 then below
    else if rest > 0.5 then below + 1
    else if below % 2 == 0 then below else below + 1
  }

  const MICRO := 1000000.0

  /** The amount in micro-units. */
  function Quantize(amount: real): int {
    RoundHalfEven(amount * MICRO)
  }

  function Distance(a: real, b: real): real {
    if a >= b then a - b else b - a
  }

  /** No whole number of micro-units is nearer to the amount, and of two equally near ones it is the even one. */
  lemma QuantizeIsNearest(amount: real, other: int)
    ensures Distance(Quantize(amount) as real, amount * MICRO) <= 0.5
    ensures Distance(Quantize(amount) as real, amount * MICRO) <= Distance(other as real, amount * MICRO)
    ensures Distance(Quantize(amount) as real, amount * MICRO) == 0.5 ==> Quantize(amount) % 2 == 0
  {
    var x, below := amount * MICRO, (amount * MICRO).Floor;
    assert below as real <= x < below as real + 1.0;
    if other <= below {
      assert other as real <= below as real;
    } else {
      assert other as real >= below as real + 1.0;
    }
  }

  // ----- pricing -----

  datatype Lookup = Rate(rate: ResolvedRate) | NoRate | Failed

  /** What looking up the rate of a unit comes to, for one event. */
  type RateLookup = string -> Lookup

  datatype Status = Priced | Partial | Unpriced | Error

  datatype CostResult = CostResult(status: Status, amount: Option<int>, missing: seq<string>)

  /** `Raised` is an exception that leaves the engine. */
  datatype Outcome = Computed(result: CostResult) | Raised

  /** Whether a reasoning rate is available; `None` when that lookup raises. */
  function ReasoningRated(f: RateLookup, s: Strategy, reasoning: int): Option<bool> {
    if !NeedsReasoningRate(s, reasoning) then Some(false)
    else
      match f(REASONING)
      case Failed => None
      case NoRate => Some(false)
      case Rate(_) => Some(true)
  }

  /** The units with a positive quantity. */
  function Consumed(m: Quantities): Quantities {
    if m == [] then [] else (if m[0].quantity > 0.0 then [m[0]] else []) + Consumed(m[1..])
  }

  function Charge(f: RateLookup, item: Item): real {
    if f(item.unit).Rate? then f(item.unit).rate.price * item.quantity else 0.0
  }

  /** The exact sum of price times quantity over the rated units. */
  function Total(f: RateLookup, consumed: Quantities): real {
    if consumed == [] then 0.0
    else Total(f, consumed[..|consumed| - 1]) + Charge(f, consumed[|consumed| - 1])
  }

  function Unrated(f: RateLookup, consumed: Quantities): seq<string> {
    if consumed == [] then []
    else Unrated(f, consumed[..|consumed| - 1])
         + if f(consumed[|consumed| - 1].unit).NoRate? then [consumed[|consumed| - 1].unit] else []
  }

  predicate AnyFailed(f: RateLookup, consumed: Quantities) {
    exists i :: 0 <= i < |consumed| && f(consumed[i].unit).Failed?
  }

  /** The result of pricing a consumption. */
  function PriceOf(f: RateLookup, consumed: Quantities): CostResult {
    if consumed == [] then
      match f(INPUT)
      case Failed => CostResult(Error, None, [])
      case NoRate => CostResult(Unpriced, None, [])
      case Rate(_) => CostResult(Priced, Some(0), [])
    else if AnyFailed(f, consumed) then CostResult(Error, None, [])
    else
      var missing := Unrated(f, consumed);
      if |missing| == |consumed| then CostResult(Unpriced, None, missing)
      else CostResult(if missing == [] then Priced else Partial, Some(Quantize(Total(f, consumed))), missing)
  }

  lemma {:induction false} UnratedLength(f: RateLookup, consumed: Quantities)
    ensures |Unrated(f, consumed)| <= |consumed|
    ensures |Unrated(f, consumed)| == |consumed| <==> forall i :: 0 <= i < |consumed| ==> f(consumed[i].unit).NoRate?
    ensures Unrated(f, consumed) == [] <==> forall i :: 0 <= i < |consumed| ==> !f(consumed[i].unit).NoRate?
    decreases |consumed|
  {
    if consumed != [] {
      UnratedLength(f, consumed[..|consumed| - 1]);
    }
  }

  lemma {:induction false} UnratedMembers(f: RateLookup, consumed: Quantities, u: string)
    ensures u in Unrated(f, consumed) <==> f(u).NoRate? && HasUnit(consumed, u)
    decreases |consumed|
  {
    if consumed != [] {
      var init, last := consumed[..|consumed| - 1], consumed[|consumed| - 1];
      assert consumed == init + [last];
      UnratedMembers(f, init, u);
      HasUnitSnoc(init, last, u);
    }
  }

  lemma HasUnitSnoc(init: Quantities, last: Item, u: string)
    ensures HasUnit(init + [last], u) <==> HasUnit(init, u) || last.unit == u
  {
    var m := init + [last];
    if HasUnit(init, u) {
      var i :| 0 <= i < |init| && init[i].unit == u;
      assert m[i].unit == u;
    }
    forall i | 0 <= i < |init| && m[i].unit == u ensures HasUnit(init, u) {
      assert init[i].unit == u;
    }
    assert m[|init|] == last;
  }

  /** The pricing loop over the consumed units. */
  method PriceConsumed(f: RateLookup, consumed: Quantities) returns (result: CostResult)
    ensures result == PriceOf(f, consumed)
  {
    if consumed == [] {
      match f(INPUT) {
        case Failed => return CostResult(Error, None, []);
        case NoRate => return CostResult(Unpriced, None, []);
        case Rate(_) => return CostResult(Priced, Some(0), []);
      }
    }
    var total, missing, pricedAny := 0.0, [], false;
    var i := 0;
    while i < |consumed|
      invariant 0 <= i <= |consumed|
      invariant forall j :: 0 <= j < i ==> !f(consumed[j].unit).Failed?
      invariant total == Total(f, consumed[..i]) && missing == Unrated(f, consumed[..i])
      invariant pricedAny <==> exists j :: 0 <= j < i && f(consumed[j].unit).Rate?
    {
      assert consumed[..i + 1][..i] == consumed[..i];
      match f(consumed[i].unit) {
        case Failed => return CostResult(Error, None, []);
        case NoRate => missing := missing + [consumed[i].unit];
        case Rate(rate) =>
          total := total + rate.price * consumed[i].quantity;
          pricedAny := true;
      }
      i := i + 1;
    }
    assert consumed[..i] == consumed;
    UnratedLength(f, consumed);
    if !pricedAny {
      return CostResult(Unpriced, None, missing);
    }
    return CostResult(if missing == [] then Priced else Partial, Some(Quantize(total)), missing);
  }

  function CostOf(f: RateLookup, s: Strategy, counts: Quantities, reasoning: int, billable: Quantities): Outcome {
    match ReasoningRated(f, s, reasoning)
    case None => Raised
    case Some(rated) => Computed(PriceOf(f, Consumed(QuantitiesOf(s, counts, reasoning, billable, rated))))
  }

  /** The whole computation for one event. */
  method Compute(f: RateLookup, s: Strategy, counts: Quantities, reasoning: int, billable: Quantities)
      returns (outcome: Outcome)
    ensures outcome == CostOf(f, s, counts, reasoning, billable)
    ensures DistinctUnits(counts) && DistinctUnits(billable) && outcome.Computed? ==>
      Explains(f, u => EventQuantity(f, s, counts, reasoning, billable, u), outcome.result)
  {
    if DistinctUnits(counts) && DistinctUnits(billable) {
      EventMeaning(f, s, counts, reasoning, billable);
    }
    var rated := ReasoningRated(f, s, reasoning);
    if rated.None? {
      return Raised;
    }
    var m := ComputeQuantities(s, counts, reasoning, billable, rated.value);
    var result := PriceConsumed(f, Consumed(m));
    outcome := Computed(result);
  }

  // ----- what a result means -----

  /** With no failing lookup: priced, partial and unpriced are all, some and none of the consumed units rated. */
  lemma StatusMeaning(f: RateLookup, consumed: Quantities)
    requires consumed != [] && !AnyFailed(f, consumed)
    ensures var r := PriceOf(f, consumed);
      && (r.status.Priced? <==> forall i :: 0 <= i < |consumed| ==> f(consumed[i].unit).Rate?)
      && (r.status.Unpriced? <==> forall i :: 0 <= i < |consumed| ==> !f(consumed[i].unit).Rate?)
      && (r.status.Partial? <==> !r.status.Priced? && !r.status.Unpriced?)
      && (forall u :: u in r.missing <==> HasUnit(consumed, u) && !f(u).Rate?)
      && (r.amount.None? <==> r.status.Unpriced?)
  {
    UnratedLength(f, consumed);
    assert forall i :: 0 <= i < |consumed| ==> !f(consumed[i].unit).Failed?;
    assert consumed[0] in consumed;
    forall u ensures u in Unrated(f, consumed) <==> HasUnit(consumed, u) && !f(u).Rate? {
      UnratedMembers(f, consumed, u);
      if HasUnit(consumed, u) {
        var i :| 0 <= i < |consumed| && consumed[i].unit == u;
      }
    }
  }

  /** The consumed units are those with a positive quantity, each with all of it. */
  lemma {:induction false} ConsumedMeaning(m: Quantities, u: string)
    requires DistinctUnits(m)
    ensures HasUnit(Consumed(m), u) <==> Get(m, u) > 0.0
    ensures Get(Consumed(m), u) == if Get(m, u) > 0.0 then Get(m, u) else 0.0
    decreases |m|
  {
    if m != [] {
      var rest := m[1..];
      assert forall i, j :: 0 <= i < j < |rest| ==> rest[i] == m[i + 1] && rest[j] == m[j + 1];
      ConsumedMeaning(rest, u);
      AbsentUnit(m);
      if m[0].quantity > 0.0 {
        assert Consumed(m) == [m[0]] + Consumed(rest) && Consumed(m)[1..] == Consumed(rest);
        HasUnitCons(Consumed(m), u);
      } else {
        assert Consumed(m) == [] + Consumed(rest) == Consumed(rest);
      }
    }
  }

  /** The first unit does not occur again, so nothing is stored for it further on. */
  lemma AbsentUnit(m: Quantities)
    requires DistinctUnits(m) && m != []
    ensures Get(m[1..], m[0].unit) == 0.0
  {
    GetConcat(m[1..], [], m[0].unit);
    assert forall i :: 0 <= i < |m[1..]| ==> m[1..][i] == m[i + 1];
  }

  /** What a quantity of a unit costs: nothing without a rate. */
  function Cost(f: RateLookup, u: string, quantity: real): real {
    if f(u).Rate? && quantity > 0.0 then f(u).rate.price * quantity else 0.0
  }

  /** The cost of some units of a consumption, added up. */
  function Bill(f: RateLookup, q: string -> real, units: seq<string>): real {
    if units == [] then 0.0 else Cost(f, units[0], q(units[0])) + Bill(f, q, units[1..])
  }

  /** A list of units that names each once and misses none that is consumed. */
  ghost predicate Lists(units: seq<string>, q: string -> real) {
    && (forall i, j :: 0 <= i < j < |units| ==> units[i] != units[j])
    && forall u :: q(u) > 0.0 ==> u in units
  }

  /** The amount is within half a micro-unit of the exact one, and on the even side of a tie. */
  predicate IsNearest(micros: int, exact: real) {
    && Distance(micros as real, exact * 1000000.0) <= 0.5
    && (Distance(micros as real, exact * 1000000.0) == 0.5 ==> micros % 2 == 0)
  }

  /** A result as the quantities and rates explain it, unit by unit. */
  ghost predicate Explains(f: RateLookup, q: string -> real, r: CostResult) {
    if forall u :: q(u) <= 0.0 then
      match f("input_token")
      case Failed => r == CostResult(Error, None, [])
      case NoRate => r == CostResult(Unpriced, None, [])
      case Rate(_) => r == CostResult(Priced, Some(0), [])
    else
      && (r.status.Error? <==> exists u :: q(u) > 0.0 && f(u).Failed?)
      && (!r.status.Error? ==>
            && (r.status.Priced? <==> forall u :: q(u) > 0.0 ==> f(u).Rate?)
            && (r.status.Unpriced? <==> forall u :: q(u) > 0.0 ==> f(u).NoRate?)
            && (forall u :: u in r.missing <==> q(u) > 0.0 && f(u).NoRate?))
      && (r.amount.Some? <==> r.status.Priced? || r.status.Partial?)
      && (r.amount.Some? ==> forall units :: Lists(units, q) ==> IsNearest(r.amount.value, Bill(f, q, units)))
  }

  lemma {:induction false} BillWithout(f: RateLookup, q: string -> real, r: string -> real, v: string,
      units: seq<string>)
    requires forall i, j :: 0 <= i < j < |units| ==> units[i] != units[j]
    requires r(v) <= 0.0 && forall u :: u != v ==> q(u) == r(u)
    ensures Bill(f, q, units) == Bill(f, r, units) + if v in units then Cost(f, v, q(v)) else 0.0
    decreases |units|
  {
    if units != [] {
      var rest := units[1..];
      assert forall i, j :: 0 <= i < j < |rest| ==> rest[i] == units[i + 1] && rest[j] == units[j + 1];
      BillWithout(f, q, r, v, rest);
      assert v in units <==> v == units[0] || v in rest;
    }
  }

  lemma {:induction false} NothingBilled(f: RateLookup, q: string -> real, units: seq<string>)
    requires forall u :: q(u) <= 0.0
    ensures Bill(f, q, units) == 0.0
    decreases |units|
  {
    if units != [] {
      NothingBilled(f, q, units[1..]);
    }
  }

  /** The total of the consumed items is the bill of the units, whatever list of them is taken. */
  lemma {:induction false} TotalIsBill(f: RateLookup, m: Quantities, q: string -> real, units: seq<string>)
    requires DistinctUnits(m) && Lists(units, q) && forall u :: q(u) == Get(m, u)
    ensures Total(f, Consumed(m)) == Bill(f, q, units)
    decreases |m|
  {
    if m == [] {
      NothingBilled(f, q, units);
    } else {
      var rest := m[1..];
      var r := u => Get(rest, u);
      assert forall i, j :: 0 <= i < j < |rest| ==> rest[i] == m[i + 1] && rest[j] == m[j + 1];
      AbsentUnit(m);
      assert q(m[0].unit) == m[0].quantity && forall u :: r(u) > 0.0 ==> q(u) > 0.0;
      TotalIsBill(f, rest, r, units);
      BillWithout(f, q, r, m[0].unit, units);
      TotalOfConsumed(f, m);
    }
  }

  lemma TotalOfConsumed(f: RateLookup, m: Quantities)
    requires m != []
    ensures Total(f, Consumed(m)) == Total(f, Consumed(m[1..])) + Cost(f, m[0].unit, m[0].quantity)
  {
    var first, rest := m[0], Consumed(m[1..]);
    if first.quantity > 0.0 {
      TotalCons(f, first, rest);
      ChargeIsCost(f, first);
    } else {
      assert Consumed(m) == [] + rest == rest;
    }
  }

  lemma ChargeIsCost(f: RateLookup, item: Item)
    requires item.quantity > 0.0
    ensures Charge(f, item) == Cost(f, item.unit, item.quantity)
  {
  }

  lemma TotalCons(f: RateLookup, first: Item, rest: Quantities)
    ensures Total(f, [first] + rest) == Total(f, rest) + Charge(f, first)
  {
    TotalConcat(f, [first], rest);
    assert [first][..0] == [];
  }

  lemma AmountExplains(f: RateLookup, m: Quantities, q: string -> real)
    requires DistinctUnits(m) && (forall u :: q(u) == Get(m, u)) && PriceOf(f, Consumed(m)).amount.Some?
    ensures forall units :: Lists(units, q) ==> IsNearest(PriceOf(f, Consumed(m)).amount.value, Bill(f, q, units))
  {
    forall units | Lists(units, q) ensures IsNearest(PriceOf(f, Consumed(m)).amount.value, Bill(f, q, units)) {
      TotalIsBill(f, m, q, units);
      QuantizeIsNearest(Total(f, Consumed(m)), 0);
      if Consumed(m) == [] {
        assert Bill(f, q, units) == 0.0;
      }
    }
  }

  lemma PriceExplains(f: RateLookup, m: Quantities, q: string -> real)
    requires DistinctUnits(m) && forall u :: q(u) == Get(m, u)
    ensures Explains(f, q, PriceOf(f, Consumed(m)))
  {
    var consumed := Consumed(m);
    forall u ensures HasUnit(consumed, u) <==> q(u) > 0.0 {
      ConsumedMeaning(m, u);
    }
    forall i | 0 <= i < |consumed| ensures HasUnit(consumed, consumed[i].unit) {
    }
    if consumed != [] {
      assert q(consumed[0].unit) > 0.0;
      StatusExplains(f, q, consumed);
      if PriceOf(f, consumed).amount.Some? {
        AmountExplains(f, m, q);
      }
    } else {
      forall u ensures q(u) <= 0.0 {
        assert !HasUnit(consumed, u);
      }
    }
  }

  lemma StatusExplains(f: RateLookup, q: string -> real, consumed: Quantities)
    requires consumed != [] && forall u :: HasUnit(consumed, u) <==> q(u) > 0.0
    ensures var r := PriceOf(f, consumed);
      && (r.status.Error? <==> exists u :: q(u) > 0.0 && f(u).Failed?)
      && (!r.status.Error? ==>
            && (r.status.Priced? <==> forall u :: q(u) > 0.0 ==> f(u).Rate?)
            && (r.status.Unpriced? <==> forall u :: q(u) > 0.0 ==> f(u).NoRate?)
            && (forall u :: u in r.missing <==> q(u) > 0.0 && f(u).NoRate?))
      && (r.amount.Some? <==> r.status.Priced? || r.status.Partial?)
  {
    forall i | 0 <= i < |consumed| ensures HasUnit(consumed, consumed[i].unit) {
    }
    if AnyFailed(f, consumed) {
      var i :| 0 <= i < |consumed| && f(consumed[i].unit).Failed?;
      assert q(consumed[i].unit) > 0.0;
    } else {
      StatusMeaning(f, consumed);
      forall u | HasUnit(consumed, u) ensures exists i :: 0 <= i < |consumed| && consumed[i].unit == u {
      }
      StatusByUnit(f, q, consumed);
    }
  }

  lemma StatusByUnit(f: RateLookup, q: string -> real, consumed: Quantities)
    requires consumed != [] && !AnyFailed(f, consumed) && forall u :: HasUnit(consumed, u) <==> q(u) > 0.0
    ensures (forall i :: 0 <= i < |consumed| ==> f(consumed[i].unit).Rate?) <==>
      forall u :: q(u) > 0.0 ==> f(u).Rate?
    ensures (forall i :: 0 <= i < |consumed| ==> !f(consumed[i].unit).Rate?) <==>
      forall u :: q(u) > 0.0 ==> f(u).NoRate?
    ensures forall u :: q(u) > 0.0 ==> !f(u).Failed?
  {
    forall u | q(u) > 0.0 ensures !f(u).Failed? && exists i :: 0 <= i < |consumed| && consumed[i].unit == u {
      assert HasUnit(consumed, u);
    }
    forall i | 0 <= i < |consumed| ensures q(consumed[i].unit) > 0.0 {
      assert HasUnit(consumed, consumed[i].unit);
    }
  }

  /**
   The quantity of a unit in an event. Reasoning tokens are a unit of their own exactly when the provider
   bills them separately and that unit has a rate; otherwise they are output tokens.
   */
  function EventQuantity(f: RateLookup, s: Strategy, counts: Quantities, reasoning: int, billable: Quantities,
      u: string): real
  {
    var separate := s.reasoning.SeparateIfRated? && f("reasoning_token").Rate?;
    (if u in s.emitted then Get(counts, u) else 0.0)
    + (if reasoning > 0 && u == (if separate then "reasoning_token" else "output_token") then reasoning as real
       else 0.0)
    + Get(billable, u)
  }

  /**
   The cost of an event, unit by unit. The exception of a failing reasoning lookup leaves the engine.
   Otherwise, nothing consumed: priced at zero if the model has an input rate. Something consumed: an error
   exactly when the lookup of a consumed unit fails; without one, priced when all the units of positive
   quantity have a rate, unpriced when none has, and missing are exactly those without. The amount is the
   nearest to the sum of price times quantity over the units that have a rate.
   */
  lemma EventMeaning(f: RateLookup, s: Strategy, counts: Quantities, reasoning: int, billable: Quantities)
    requires DistinctUnits(counts) && DistinctUnits(billable)
    ensures var outcome := CostOf(f, s, counts, reasoning, billable);
      if reasoning > 0 && s.reasoning.SeparateIfRated? && f("reasoning_token").Failed? then outcome.Raised?
      else
        && outcome.Computed?
        && Explains(f, u => EventQuantity(f, s, counts, reasoning, billable, u), outcome.result)
  {
    var rated := ReasoningRated(f, s, reasoning);
    if rated.Some? {
      var m := QuantitiesOf(s, counts, reasoning, billable, rated.value);
      var q := u => EventQuantity(f, s, counts, reasoning, billable, u);
      QuantitiesMeaning(s, counts, reasoning, billable, rated.value, INPUT);
      forall u ensures q(u) == Get(m, u) {
        QuantitiesMeaning(s, counts, reasoning, billable, rated.value, u);
      }
      PriceExplains(f, m, q);
    }
  }

  /** The same for any list of consumed units: each is in it once, with a positive quantity. */
  predicate AllConsumed(consumed: Quantities) {
    DistinctUnits(consumed) && forall i :: 0 <= i < |consumed| ==> consumed[i].quantity > 0.0
  }

  lemma {:induction false} ConsumedAgain(consumed: Quantities)
    requires forall i :: 0 <= i < |consumed| ==> consumed[i].quantity > 0.0
    ensures Consumed(consumed) == consumed
    decreases |consumed|
  {
    if consumed != [] {
      ConsumedAgain(consumed[1..]);
    }
  }

  lemma PriceMeaning(f: RateLookup, consumed: Quantities, q: string -> real)
    requires AllConsumed(consumed) && forall u :: q(u) == Get(consumed, u)
    ensures Explains(f, q, PriceOf(f, consumed))
  {
    ConsumedAgain(consumed);
    PriceExplains(f, consumed, q);
  }

  /**
   The amount is within half a micro-unit of the sum of price times quantity over the units that have a
   rate, in whatever order they are listed, and no other amount is nearer.
   */
  lemma AmountMeaning(f: RateLookup, consumed: Quantities, q: string -> real, units: seq<string>, other: int)
    requires AllConsumed(consumed) && Lists(units, q) && forall u :: q(u) == Get(consumed, u)
    requires PriceOf(f, consumed).amount.Some?
    ensures IsNearest(PriceOf(f, consumed).amount.value, Bill(f, q, units))
    ensures var micros, exact := PriceOf(f, consumed).amount.value, Bill(f, q, units);
      Distance(micros as real, exact * 1000000.0) <= Distance(other as real, exact * 1000000.0)
  {
    AmountIsNearest(f, consumed, q, units);
    NoneNearer(PriceOf(f, consumed).amount.value, Bill(f, q, units) * 1000000.0, other);
  }

  lemma AmountIsNearest(f: RateLookup, consumed: Quantities, q: string -> real, units: seq<string>)
    requires AllConsumed(consumed) && Lists(units, q) && forall u :: q(u) == Get(consumed, u)
    requires PriceOf(f, consumed).amount.Some?
    ensures IsNearest(PriceOf(f, consumed).amount.value, Bill(f, q, units))
  {
    PriceMeaning(f, consumed, q);
    if consumed == [] {
      NothingBilled(f, q, units);
    } else {
      assert q(consumed[0].unit) > 0.0;
    }
  }

  lemma NoneNearer(micros: int, x: real, other: int)
    requires Distance(micros as real, x) <= 0.5
    ensures Distance(micros as real, x) <= Distance(other as real, x)
  {
    if other < micros {
      assert other as real <= micros as real - 1.0;
    } else if other > micros {
      assert other as real >= micros as real + 1.0;
    }
  }

  lemma {:induction false} TotalConcat(f: RateLookup, a: Quantities, b: Quantities)
    ensures Total(f, a + b) == Total(f, a) + Total(f, b)
    ensures Unrated(f, a + b) == Unrated(f, a) + Unrated(f, b)
    decreases |b|
  {
    if b == [] {
      assert a + b == a;
    } else {
      assert (a + b)[..|a + b| - 1] == a + b[..|b| - 1];
      TotalConcat(f, a, b[..|b| - 1]);
    }
  }

  /** Moving an item to the front changes neither the total nor the multiset of unrated units. */
  lemma TotalMove(f: RateLookup, a: Quantities, x: Item, b: Quantities)
    ensures Total(f, a + [x] + b) == Total(f, [x] + (a + b))
    ensures multiset(Unrated(f, a + [x] + b)) == multiset(Unrated(f, [x] + (a + b)))
  {
    TotalConcat(f, a + [x], b);
    TotalConcat(f, a, [x]);
    TotalConcat(f, [x], a + b);
    TotalConcat(f, a, b);
  }

  lemma {:induction false} SameTotals(f: RateLookup, a: Quantities, b: Quantities)
    requires multiset(a) == multiset(b)
    ensures Total(f, a) == Total(f, b)
    ensures multiset(Unrated(f, a)) == multiset(Unrated(f, b))
    decreases |a|
  {
    if a == [] {
      assert |multiset(b)| == 0;
    } else {
      var x, rest := a[0], a[1..];
      assert a == [x] + rest;
      var i := IndexOf(b, x);
      var left, right := b[..i], b[i + 1..];
      assert b == left + [x] + right;
      MultisetCancel(x, rest, left, right);
      SameTotals(f, rest, left + right);
      TotalMove(f, left, x, right);
      TotalConcat(f, [x], rest);
      TotalConcat(f, [x], left + right);
    }
  }

  lemma IndexOf(b: Quantities, x: Item) returns (i: nat)
    requires x in multiset(b)
    ensures i < |b| && b[i] == x
  {
    i :| 0 <= i < |b| && b[i] == x;
  }

  lemma MultisetCancel(x: Item, rest: Quantities, left: Quantities, right: Quantities)
    requires multiset([x] + rest) == multiset(left + [x] + right)
    ensures multiset(rest) == multiset(left + right)
  {
    assert multiset([x] + rest) == multiset{x} + multiset(rest);
    assert multiset(left + [x] + right) == multiset(left) + multiset{x} + multiset(right);
    assert multiset(left + right) == multiset(left) + multiset(right);
    assert multiset(rest) == (multiset{x} + multiset(rest)) - multiset{x};
    assert multiset(left) + multiset(right) == (multiset(left) + multiset{x} + multiset(right)) - multiset{x};
  }

  /** Status and amount do not depend on the order in which the units are visited. */
  lemma VisitingOrderIrrelevant(f: RateLookup, a: Quantities, b: Quantities)
    requires multiset(a) == multiset(b)
    ensures PriceOf(f, a).status == PriceOf(f, b).status && PriceOf(f, a).amount == PriceOf(f, b).amount
    ensures multiset(PriceOf(f, a).missing) == multiset(PriceOf(f, b).missing)
  {
    SameTotals(f, a, b);
    assert |a| == |multiset(a)| && |b| == |multiset(b)|;
    assert |Unrated(f, a)| == |multiset(Unrated(f, a))| && |Unrated(f, b)| == |multiset(Unrated(f, b))|;
    assert (Unrated(f, a) == [] <==> |Unrated(f, a)| == 0) && (Unrated(f, b) == [] <==> |Unrated(f, b)| == 0);
    if AnyFailed(f, a) {
      var i :| 0 <= i < |a| && f(a[i].unit).Failed?;
      assert a[i] in multiset(b);
    }
    if AnyFailed(f, b) {
      var i :| 0 <= i < |b| && f(b[i].unit).Failed?;
      assert b[i] in multiset(a);
    }
  }

  /**
   A failing lookup is recorded as an error status, except that of the reasoning rate, which is
   made outside the guarded part: exactly there the exception leaves the engine.
   */
  lemma ReasoningLookupEscapes(f: RateLookup, s: Strategy, counts: Quantities, reasoning: int, billable: Quantities)
    ensures CostOf(f, s, counts, reasoning, billable).Raised? <==>
      reasoning > 0 && s.reasoning.SeparateIfRated? && f(REASONING).Failed?
  {
  }

  // ----- the past -----

  /** What the engine needs to know of an event to look up its rates. */
  datatype PricedEvent = PricedEvent(provider: string, model: string, day: Day, tier: Option<string>)

  /** The lookups of an event against a card table; the lookups of `failing` raise. */
  function LookUp(cards: seq<Card>, failing: set<string>, e: PricedEvent, unit: string): Lookup {
    if unit in failing then Failed
    else
      var found := Resolve(cards, Query(e.provider, unit, e.tier, "realtime", None), e.model, e.day);
      if found.Some? then Rate(found.value) else NoRate
  }

  /**
   A rate that is found is that of a stored card for the event's provider, unit and day, at the standard
   mode, for its tier or any, and for no bracket.
   */
  lemma LookUpMeaning(cards: seq<Card>, failing: set<string>, e: PricedEvent, unit: string)
    ensures LookUp(cards, failing, e, unit).Failed? <==> unit in failing
    ensures LookUp(cards, failing, e, unit).Rate? ==>
      exists i :: 0 <= i < |cards| && IsRateOf(LookUp(cards, failing, e, unit).rate, cards[i], e, unit)
  {
    var q := Query(e.provider, unit, e.tier, "realtime", None);
    var r := ResolvedIndex(cards, q, e.model, e.day);
    if unit !in failing && r.Some? {
      ResolvedServes(cards, q, e.model, e.day);
      assert IsRateOf(LookUp(cards, failing, e, unit).rate, cards[r.value], e, unit);
    }
  }

  predicate IsRateOf(rate: ResolvedRate, c: Card, e: PricedEvent, unit: string) {
    && rate.price == c.price && rate.cardId == c.id && rate.currency == c.currency && rate.source == c.source
    && c.grain.provider == e.provider && c.grain.unit == unit && c.grain.mode == "realtime"
    && (c.grain.tier.Some? ==> c.grain.tier == e.tier) && c.grain.bracket.None?
    && c.from <= e.day && (c.to.Some? ==> e.day <= c.to.value)
  }

  function Rates(cards: seq<Card>, failing: set<string>, e: PricedEvent): RateLookup {
    u => LookUp(cards, failing, e, u)
  }

  lemma LookUpAfterImports(t: Table, jobs: seq<ImportJob>, failing: set<string>, e: PricedEvent, unit: string)
    requires ValidTable(t) && forall i :: 0 <= i < |jobs| ==> JobAfter(jobs[i], e.day)
    ensures LookUp(ImportAll(t, jobs).cards, failing, e, unit) == LookUp(t.cards, failing, e, unit)
  {
    ImportsNeverChangeThePast(t, jobs, Query(e.provider, unit, e.tier, "realtime", None), e.model, e.day);
  }

  lemma {:induction false} SameLookupsSameTotals(f: RateLookup, g: RateLookup, consumed: Quantities)
    requires forall u :: f(u) == g(u)
    ensures Total(f, consumed) == Total(g, consumed) && Unrated(f, consumed) == Unrated(g, consumed)
    decreases |consumed|
  {
    if consumed != [] {
      SameLookupsSameTotals(f, g, consumed[..|consumed| - 1]);
      assert f(consumed[|consumed| - 1].unit) == g(consumed[|consumed| - 1].unit);
    }
  }

  lemma SameLookupsSameCost(f: RateLookup, g: RateLookup, s: Strategy, counts: Quantities, reasoning: int,
      billable: Quantities)
    requires forall u :: f(u) == g(u)
    ensures CostOf(f, s, counts, reasoning, billable) == CostOf(g, s, counts, reasoning, billable)
  {
    assert f(REASONING) == g(REASONING) && f(INPUT) == g(INPUT);
    if ReasoningRated(f, s, reasoning).Some? {
      var consumed := Consumed(QuantitiesOf(s, counts, reasoning, billable, ReasoningRated(f, s, reasoning).value));
      SameLookupsSameTotals(f, g, consumed);
      assert AnyFailed(f, consumed) <==> AnyFailed(g, consumed);
    }
  }

  /** Recomputing an earlier event after any imports dated after it gives the same outcome. */
  lemma ImportsNeverReprice(t: Table, jobs: seq<ImportJob>, failing: set<string>, s: Strategy, e: PricedEvent,
                            counts: Quantities, reasoning: int, billable: Quantities)
    requires ValidTable(t) && forall i :: 0 <= i < |jobs| ==> JobAfter(jobs[i], e.day)
    ensures CostOf(Rates(ImportAll(t, jobs).cards, failing, e), s, counts, reasoning, billable) ==
            CostOf(Rates(t.cards, failing, e), s, counts, reasoning, billable)
  {
    var before, after := Rates(t.cards, failing, e), Rates(ImportAll(t, jobs).cards, failing, e);
    forall u ensures after(u) == before(u) {
      LookUpAfterImports(t, jobs, failing, e, u);
    }
    SameLookupsSameCost(after, before, s, counts, reasoning, billable);
  }
}
