/** Creating and closing single cards, and what each does to the no-overlap invariant. */
module RateCardAdmin {
  import opened Wrappers
  import opened RateCards

  /** The stored table: rows in insertion order and the next identifier. */
  datatype Table = Table(cards: seq<Card>, nextId: nat)

  predicate ValidTable(t: Table) {
    && (forall i :: 0 <= i < |t.cards| ==> t.cards[i].id < t.nextId)
    && (forall i, j :: 0 <= i < j < |t.cards| ==> t.cards[i].id != t.cards[j].id)
  }

  function LastDay(to: Option<Day>): Day {
    if to.Some? then to.value else MAX_DAY
  }

  predicate RangesIntersect(aFrom: Day, aTo: Option<Day>, bFrom: Day, bTo: Option<Day>) {
    aFrom <= LastDay(bTo) && bFrom <= LastDay(aTo)
  }

  /** A day on which both ranges are in force. */
  ghost predicate CommonDay(aFrom: Day, aTo: Option<Day>, bFrom: Day, bTo: Option<Day>) {
    exists d: Day :: InForce(aFrom, aTo, d) && InForce(bFrom, bTo, d)
  }

  /**
   The check never misses a common day. It finds one exactly when neither range is inverted;
   an inverted range, which the API accepts, is never in force yet can still be refused.
   */
  lemma RangesIntersectMeaning(aFrom: Day, aTo: Option<Day>, bFrom: Day, bTo: Option<Day>)
    ensures CommonDay(aFrom, aTo, bFrom, bTo) <==>
      RangesIntersect(aFrom, aTo, bFrom, bTo) && aFrom <= LastDay(aTo) && bFrom <= LastDay(bTo)
  {
    if RangesIntersect(aFrom, aTo, bFrom, bTo) && aFrom <= LastDay(aTo) && bFrom <= LastDay(bTo) {
      var d: Day := if aFrom <= bFrom then bFrom else aFrom;
      assert InForce(aFrom, aTo, d) && InForce(bFrom, bTo, d);
    }
  }

  lemma InvertedRangeIsRefused()
    ensures RangesIntersect(5, Some(3), 1, Some(10)) && !CommonDay(5, Some(3), 1, Some(10))
  {
  }

  /** Two cards that are never in force together on one grain; decidable from their dates. */
  predicate Disjoint(a: Card, b: Card) {
    || a.grain != b.grain
    || !RangesIntersect(a.from, a.to, b.from, b.to)
    || a.from > LastDay(a.to) || b.from > LastDay(b.to)
  }

  /** The invariant, day by day, is this pairwise check. */
  lemma NoOverlapMeaning(cards: seq<Card>)
    ensures NoOverlap(cards) <==> PairwiseDisjoint(cards)
  {
    forall i, j | 0 <= i < j < |cards|
      ensures Disjoint(cards[i], cards[j]) <==>
        (cards[i].grain == cards[j].grain ==>
          forall d: Day :: !(EffectiveOn(cards[i], d) && EffectiveOn(cards[j], d)))
    {
      var a, b := cards[i], cards[j];
      RangesIntersectMeaning(a.from, a.to, b.from, b.to);
      if CommonDay(a.from, a.to, b.from, b.to) {
        var d: Day :| InForce(a.from, a.to, d) && InForce(b.from, b.to, d);
        assert EffectiveOn(a, d) && EffectiveOn(b, d);
      }
    }
  }

  /** `update ... where id = ?`. */
  function WithEnd(cards: seq<Card>, id: nat, to: Day): (r: seq<Card>)
    ensures |r| == |cards|
    ensures forall i :: 0 <= i < |r| ==>
      r[i] == if cards[i].id == id then cards[i].(to := Some(to)) else cards[i]
  {
    if cards == [] then []
    else [if cards[0].id == id then cards[0].(to := Some(to)) else cards[0]] + WithEnd(cards[1..], id, to)
  }

  /** Closing a card keeps the invariant exactly when its new range meets no other card of its grain. */
  lemma CloseKeepsNoOverlapIff(t: Table, i: nat, to: Day)
    requires ValidTable(t) && NoOverlap(t.cards) && i < |t.cards|
    ensures NoOverlap(WithEnd(t.cards, t.cards[i].id, to)) <==>
      forall j :: 0 <= j < |t.cards| && j != i ==> Disjoint(t.cards[i].(to := Some(to)), t.cards[j])
  {
    var before, after := t.cards, WithEnd(t.cards, t.cards[i].id, to);
    NoOverlapMeaning(before);
    NoOverlapMeaning(after);
    assert after == before[i := before[i].(to := Some(to))];
    ReplacedCard(before, i, before[i].(to := Some(to)));
  }

  predicate PairwiseDisjoint(cards: seq<Card>) {
    forall i, j :: 0 <= i < j < |cards| ==> Disjoint(cards[i], cards[j])
  }

  lemma ReplacedCard(cards: seq<Card>, i: nat, c: Card)
    requires i < |cards| && PairwiseDisjoint(cards)
    ensures PairwiseDisjoint(cards[i := c]) <==> forall j :: 0 <= j < |cards| && j != i ==> Disjoint(c, cards[j])
  {
    var after := cards[i := c];
    if PairwiseDisjoint(after) {
      forall j | 0 <= j < |cards| && j != i ensures Disjoint(c, cards[j]) {
        assert Disjoint(after[if i < j then i else j], after[if i < j then j else i]);
      }
    }
    if forall j :: 0 <= j < |cards| && j != i ==> Disjoint(c, cards[j]) {
      forall j, k | 0 <= j < k < |after| ensures Disjoint(after[j], after[k]) {
        assert Disjoint(cards[j], cards[k]);
        assert j == i ==> Disjoint(c, cards[k]);
        assert k == i ==> Disjoint(c, cards[j]);
      }
    }
  }

  /** In particular, a close that does not extend the range is always safe. */
  lemma ShorteningCloseIsSafe(t: Table, i: nat, to: Day)
    requires ValidTable(t) && NoOverlap(t.cards) && i < |t.cards| && to <= LastDay(t.cards[i].to)
    ensures NoOverlap(WithEnd(t.cards, t.cards[i].id, to))
  {
    CloseKeepsNoOverlapIff(t, i, to);
    NoOverlapMeaning(t.cards);
    forall j | 0 <= j < |t.cards| && j != i
      ensures Disjoint(t.cards[i].(to := Some(to)), t.cards[j])
    {
      AnyPairDisjoint(t.cards, i, j);
      ShorterStaysDisjoint(t.cards[i], to, t.cards[j]);
    }
  }

  lemma AnyPairDisjoint(cards: seq<Card>, i: nat, j: nat)
    requires PairwiseDisjoint(cards) && i < |cards| && j < |cards| && i != j
    ensures Disjoint(cards[i], cards[j])
  {
    assert Disjoint(cards[if i < j then i else j], cards[if i < j then j else i]);
  }

  lemma ShorterStaysDisjoint(c: Card, to: Day, d: Card)
    requires Disjoint(c, d) && to <= LastDay(c.to)
    ensures Disjoint(c.(to := Some(to)), d)
  {
  }

  /** An extending close can break it: the earlier of two adjacent cards is reopened over the later one. */
  lemma ExtendingCloseOverlaps(g: Grain)
    ensures var a := Card(0, g, 10, Some(19), false, 1.0, "USD", "manual");
      var b := Card(1, g, 20, None, false, 2.0, "USD", "manual");
      NoOverlap([a, b]) && !NoOverlap(WithEnd([a, b], 0, 25))
  {
    var a := Card(0, g, 10, Some(19), false, 1.0, "USD", "manual");
    var b := Card(1, g, 20, None, false, 2.0, "USD", "manual");
    var t := Table([a, b], 2);
    CloseKeepsNoOverlapIff(t, 0, 25);
    RangesIntersectMeaning(10, Some(25), 20, None);
    assert !Disjoint(t.cards[0].(to := Some(25)), t.cards[1]);
  }

  predicate Conflicts(c: Card, grain: Grain, from: Day, to: Option<Day>, excluded: Option<nat>) {
    c.grain == grain && excluded != Some(c.id) && RangesIntersect(from, to, c.from, c.to)
  }

  /** The first stored card of the grain whose dates intersect the given ones. */
  method CheckOverlap(cards: seq<Card>, grain: Grain, from: Day, to: Option<Day>, excluded: Option<nat>)
      returns (conflict: Option<nat>)
    ensures conflict.Some? ==>
      exists i :: 0 <= i < |cards| && cards[i].id == conflict.value && excluded != conflict
                  && cards[i].grain == grain && RangesIntersect(from, to, cards[i].from, cards[i].to)
    ensures conflict.None? ==>
      forall i :: 0 <= i < |cards| && cards[i].grain == grain && excluded != Some(cards[i].id) ==>
        !RangesIntersect(from, to, cards[i].from, cards[i].to)
  {
    var i := 0;
    while i < |cards|
      invariant 0 <= i <= |cards|
      invariant forall j :: 0 <= j < i ==> !Conflicts(cards[j], grain, from, to, excluded)
    {
      if Conflicts(cards[i], grain, from, to, excluded) {
        return Some(cards[i].id);
      }
      i := i + 1;
    }
    return None;
  }

  /** A guarded insert keeps the invariant. */
  lemma GuardedInsertKeepsNoOverlap(cards: seq<Card>, c: Card)
    requires NoOverlap(cards)
    requires forall i :: 0 <= i < |cards| ==> !Conflicts(cards[i], c.grain, c.from, c.to, None)
    ensures NoOverlap(cards + [c])
  {
    NoOverlapMeaning(cards);
    NoOverlapMeaning(cards + [c]);
    forall i, j | 0 <= i < j < |cards + [c]| ensures Disjoint((cards + [c])[i], (cards + [c])[j]) {
      if j < |cards| {
        assert Disjoint(cards[i], cards[j]);
      } else {
        assert !Conflicts(cards[i], c.grain, c.from, c.to, None);
      }
    }
  }

  /** The card table as the admin operations update it. */
  class RateCardTable {
    var table: Table

    constructor ()
      ensures table == Table([], 0) && ValidTable(table) && NoOverlap(table.cards)
    {
      table := Table([], 0);
    }

    /** Adds a card unless a card of its grain intersects its dates; `None` is the overlap error. */
    method Create(grain: Grain, from: Day, to: Option<Day>, overriding: bool, price: real,
        currency: string, source: string)
        returns (created: Option<Card>)
      requires ValidTable(table)
      modifies this
      ensures ValidTable(table)
      ensures NoOverlap(old(table.cards)) ==> NoOverlap(table.cards)
      ensures created.None? <==>
        exists i :: 0 <= i < |old(table.cards)| && old(table.cards)[i].grain == grain
                    && RangesIntersect(from, to, old(table.cards)[i].from, old(table.cards)[i].to)
      ensures created.None? ==> table == old(table)
      ensures created.Some? ==>
        && created.value == Card(old(table.nextId), grain, from, to, overriding, price, currency, source)
        && table == Table(old(table.cards) + [created.value], old(table.nextId) + 1)
    {
      var conflict := CheckOverlap(table.cards, grain, from, to, None);
      if conflict.Some? {
        return None;
      }
      var card := Card(table.nextId, grain, from, to, overriding, price, currency, source);
      assert forall i :: 0 <= i < |table.cards| ==> !Conflicts(table.cards[i], grain, from, to, None);
      if NoOverlap(table.cards) {
        GuardedInsertKeepsNoOverlap(table.cards, card);
      }
      table := Table(table.cards + [card], table.nextId + 1);
      return Some(card);
    }

    /** Overwrites the end date of one card; false when there is no such card. */
    method Close(id: nat, to: Day) returns (found: bool)
      requires ValidTable(table)
      modifies this
      ensures ValidTable(table)
      ensures found <==> exists i :: 0 <= i < |old(table.cards)| && old(table.cards)[i].id == id
      ensures table == old(table).(cards := WithEnd(old(table.cards), id, to))
    {
      var i := 0;
      while i < |table.cards|
        invariant 0 <= i <= |table.cards| && table == old(table)
        invariant forall j :: 0 <= j < i ==> table.cards[j].id != id
      {
        if table.cards[i].id == id {
          var card := table.cards[i].(to := Some(to));
          assert table.cards[i := card] == WithEnd(table.cards, id, to);
          table := table.(cards := table.cards[i := card]);
          return true;
        }
        i := i + 1;
      }
      assert WithEnd(table.cards, id, to) == table.cards;
      return false;
    }
  }
}
