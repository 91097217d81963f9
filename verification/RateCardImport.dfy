/**
 Importing a price list: a diff against the stored cards, and an apply that closes superseded
 cards and opens new ones.

 An import never rewrites the past: nothing resolved for a day before the import date changes.
 */
module RateCardImport {
  import opened Wrappers
  import opened Ordering
  import opened RateCards
  import opened RateCardAdmin

  datatype Row = Row(grain: Grain, from: Day, overriding: bool, price: real, currency: string, source: string)

  datatype Action = New | Superseded | Unchanged | Conflict

  datatype Change = Change(action: Action, provider: string, model: string, unit: string, priority: int,
                           newPrice: real, oldCardId: Option<nat>, closeTo: Option<Day>)

  // ----- the diff -----

  predicate OpenOn(c: Card, g: Grain) {
    c.grain == g && c.to.None?
  }

  /** The open card of a grain with the latest start, the first stored one among equals. */
  function CurrentOpen(cards: seq<Card>, g: Grain): (r: Option<nat>)
    ensures r.Some? ==> r.value < |cards| && OpenOn(cards[r.value], g)
  {
    if cards == [] then None else
    var last := cards[|cards| - 1];
    var best := CurrentOpen(cards[..|cards| - 1], g);
    if !OpenOn(last, g) then best
    else if best.Some? && last.from <= cards[best.value].from then best
    else Some(|cards| - 1)
  }

  lemma {:induction false} CurrentOpenIsLatest(cards: seq<Card>, g: Grain)
    ensures var r := CurrentOpen(cards, g);
      && (r.None? ==> forall i :: 0 <= i < |cards| && cards[i].grain == g ==> cards[i].to.Some?)
      && (r.Some? ==> cards[r.value].grain == g && cards[r.value].to.None?)
      && (r.Some? ==> forall i :: 0 <= i < |cards| && cards[i].grain == g && cards[i].to.None? ==>
            cards[i].from <= cards[r.value].from)
    decreases |cards|
  {
    if cards != [] {
      CurrentOpenIsLatest(cards[..|cards| - 1], g);
      assert forall i :: 0 <= i < |cards| - 1 ==> cards[..|cards| - 1][i] == cards[i];
    }
  }

  function MakeChange(row: Row, action: Action, oldId: Option<nat>, closeTo: Option<Day>): Change {
    var g := row.grain;
    Change(action, g.provider, g.model, g.unit, g.priority, row.price, oldId, closeTo)
  }

  function Classify(row: Row, existing: Option<Card>, date: Day): Change {
    match existing
    case None => MakeChange(row, New, None, None)
    case Some(card) =>
      if card.price == row.price then MakeChange(row, Unchanged, Some(card.id), None)
      else if card.from < date then MakeChange(row, Superseded, Some(card.id), Some(date - 1))
      else MakeChange(row, Conflict, Some(card.id), None)
  }

  function ChangeFor(cards: seq<Card>, row: Row, date: Day): Change {
    var i := CurrentOpen(cards, row.grain);
    Classify(row, if i.Some? then Some(cards[i.value]) else None, date)
  }

  function Diff(cards: seq<Card>, rows: seq<Row>, date: Day): (r: seq<Change>)
    ensures |r| == |rows| && forall i :: 0 <= i < |r| ==> r[i] == ChangeFor(cards, rows[i], date)
  {
    if rows == [] then [] else Diff(cards, rows[..|rows| - 1], date) + [ChangeFor(cards, rows[|rows| - 1], date)]
  }

  /**
   What a row comes to, with its own columns: new if no card of its grain is open; otherwise, against one
   of the open cards with the latest start, unchanged at the same price, else superseding it on the day
   before the import if it started earlier, else in conflict with it.
   */
  predicate IsChangeFor(cards: seq<Card>, row: Row, date: Day, c: Change) {
    && c.provider == row.grain.provider && c.model == row.grain.model && c.unit == row.grain.unit
    && c.priority == row.grain.priority && c.newPrice == row.price
    && if forall i :: 0 <= i < |cards| && cards[i].grain == row.grain ==> cards[i].to.Some? then
         c.action == New && c.oldCardId == None && c.closeTo == None
       else
         exists i :: 0 <= i < |cards| && IsLatestOpen(cards, row.grain, i) && ComparesTo(cards[i], row, date, c)
  }

  predicate IsLatestOpen(cards: seq<Card>, g: Grain, i: nat)
    requires i < |cards|
  {
    && cards[i].grain == g && cards[i].to.None?
    && forall j :: 0 <= j < |cards| && cards[j].grain == g && cards[j].to.None? ==> cards[j].from <= cards[i].from
  }

  predicate ComparesTo(card: Card, row: Row, date: Day, c: Change) {
    && c.oldCardId == Some(card.id)
    && (c.action == Unchanged <==> row.price == card.price)
    && (c.action == Superseded <==> row.price != card.price && card.from < date)
    && (c.action == Conflict <==> row.price != card.price && card.from >= date)
    && c.closeTo == if c.action == Superseded then Some(date - 1) else None
  }

  lemma ChangeForMeaning(cards: seq<Card>, row: Row, date: Day)
    ensures IsChangeFor(cards, row, date, ChangeFor(cards, row, date))
  {
    CurrentOpenIsLatest(cards, row.grain);
    var r := CurrentOpen(cards, row.grain);
    if r.Some? {
      assert IsLatestOpen(cards, row.grain, r.value);
      assert ComparesTo(cards[r.value], row, date, ChangeFor(cards, row, date));
    }
  }

  method ComputeImportDiff(cards: seq<Card>, rows: seq<Row>, date: Day) returns (changes: seq<Change>)
    ensures changes == Diff(cards, rows, date)
    ensures forall k :: 0 <= k < |rows| ==> IsChangeFor(cards, rows[k], date, changes[k])
  {
    forall k | 0 <= k < |rows| ensures IsChangeFor(cards, rows[k], date, ChangeFor(cards, rows[k], date)) {
      ChangeForMeaning(cards, rows[k], date);
    }
    changes := [];
    var i := 0;
    while i < |rows|
      invariant 0 <= i <= |rows|
      invariant changes == Diff(cards, rows[..i], date)
    {
      assert rows[..i + 1][..i] == rows[..i];
      changes := changes + [ChangeFor(cards, rows[i], date)];
      i := i + 1;
    }
    assert rows[..i] == rows;
  }

  // ----- applying a diff -----

  predicate Applied(c: Change) {
    c.action.New? || c.action.Superseded?
  }

  function ToCard(row: Row, id: nat): Card {
    Card(id, row.grain, row.from, None, row.overriding, row.price, row.currency, row.source)
  }

  function ApplyChange(t: Table, row: Row, c: Change): Table {
    var closed := if c.action.Superseded? && c.oldCardId.Some? && c.closeTo.Some?
                  then WithEnd(t.cards, c.oldCardId.value, c.closeTo.value) else t.cards;
    if Applied(c) then Table(closed + [ToCard(row, t.nextId)], t.nextId + 1) else t
  }

  function ApplyChanges(t: Table, rows: seq<Row>, changes: seq<Change>): Table
    requires |rows| == |changes|
    decreases |rows|
  {
    if rows == [] then t
    else ApplyChange(ApplyChanges(t, rows[..|rows| - 1], changes[..|rows| - 1]), rows[|rows| - 1], changes[|rows| - 1])
  }

  function Import(t: Table, rows: seq<Row>, date: Day): Table {
    ApplyChanges(t, rows, Diff(t.cards, rows, date))
  }

  /** The positions of the applied rows, in order. */
  function AppliedRows(changes: seq<Change>): (r: seq<nat>)
    ensures forall n :: 0 <= n < |r| ==> r[n] < |changes| && Applied(changes[r[n]])
  {
    if changes == [] then []
    else AppliedRows(changes[..|changes| - 1]) + if Applied(changes[|changes| - 1]) then [|changes| - 1] else []
  }

  lemma {:induction false} AppliedRowsMeaning(changes: seq<Change>)
    ensures var r := AppliedRows(changes);
      && (forall n, m :: 0 <= n < m < |r| ==> r[n] < r[m])
      && (forall k :: 0 <= k < |changes| && Applied(changes[k]) ==> k in r)
    decreases |changes|
  {
    if changes != [] {
      var init, m := changes[..|changes| - 1], |changes| - 1;
      AppliedRowsMeaning(init);
      forall k | 0 <= k < m && Applied(changes[k]) ensures k in AppliedRows(init) {
        assert init[k] == changes[k];
      }
    }
  }

  /** Every applied row has a position in that list. */
  lemma {:induction false} AppliedRowAt(changes: seq<Change>, k: nat) returns (p: nat)
    requires k < |changes| && Applied(changes[k])
    ensures p < |AppliedRows(changes)| && AppliedRows(changes)[p] == k
    decreases |changes|
  {
    var init := changes[..|changes| - 1];
    if k == |changes| - 1 {
      p := |AppliedRows(init)|;
    } else {
      p := AppliedRowAt(init, k);
    }
  }

  /** Some change supersedes the card with this identifier. */
  predicate Closes(changes: seq<Change>, id: nat) {
    exists k :: 0 <= k < |changes| && changes[k].action.Superseded? && changes[k].oldCardId == Some(id)
  }

  lemma ClosesSnoc(changes: seq<Change>, id: nat)
    requires changes != []
    ensures var last := changes[|changes| - 1];
      Closes(changes, id) <==>
        Closes(changes[..|changes| - 1], id) || (last.action.Superseded? && last.oldCardId == Some(id))
  {
    var init := changes[..|changes| - 1];
    if Closes(init, id) {
      var k :| 0 <= k < |init| && init[k].action.Superseded? && init[k].oldCardId == Some(id);
      assert changes[k] == init[k];
    }
    if Closes(changes, id) {
      var k :| 0 <= k < |changes| && changes[k].action.Superseded? && changes[k].oldCardId == Some(id);
      assert k < |init| ==> init[k] == changes[k];
    }
  }

  /** Every supersession in the list closes on the day before `date` a card stored below `bound`. */
  predicate ClosesBefore(changes: seq<Change>, date: Day, bound: nat) {
    forall k :: 0 <= k < |changes| && changes[k].action.Superseded? ==>
      changes[k].oldCardId.Some? && changes[k].oldCardId.value < bound && date > 1
        && changes[k].closeTo == Some(date - 1)
  }

  lemma DiffClosesBefore(t: Table, rows: seq<Row>, date: Day)
    requires ValidTable(t)
    ensures ClosesBefore(Diff(t.cards, rows, date), date, t.nextId)
  {
  }

  /** `t` after `changes`: the cards of `start`, some of them closed, followed by the applied rows. */
  ghost predicate Shape(start: Table, t: Table, rows: seq<Row>, changes: seq<Change>, date: Day)
    requires |rows| == |changes|
  {
    var a := AppliedRows(changes);
    && ValidTable(t)
    && |t.cards| == |start.cards| + |a| && t.nextId == start.nextId + |a|
    && (forall i :: 0 <= i < |start.cards| ==> t.cards[i] == AfterClosing(start.cards[i], changes, date))
    && (forall i :: |start.cards| <= i < |t.cards| ==>
          t.cards[i] == ToCard(rows[a[i - |start.cards|]], start.nextId + (i - |start.cards|)))
  }

  /** The card of a row: open, and equal to the row in every column. */
  predicate IsCardOf(c: Card, row: Row, id: nat) {
    && c.id == id && c.grain == row.grain && c.from == row.from && c.to == None && c.overriding == row.overriding
    && c.price == row.price && c.currency == row.currency && c.source == row.source
  }

  function AfterClosing(c: Card, changes: seq<Change>, date: Day): Card {
    if date > 1 && Closes(changes, c.id) then c.(to := Some(date - 1)) else c
  }

  lemma ApplyOld(start: Table, t: Table, row: Row, changes: seq<Change>, date: Day, i: nat)
    requires changes != [] && ClosesBefore(changes, date, start.nextId)
    requires i < |start.cards| && i < |t.cards|
    requires t.cards[i] == AfterClosing(start.cards[i], changes[..|changes| - 1], date)
    ensures i < |ApplyChange(t, row, changes[|changes| - 1]).cards|
    ensures ApplyChange(t, row, changes[|changes| - 1]).cards[i] == AfterClosing(start.cards[i], changes, date)
  {
    ClosesSnoc(changes, start.cards[i].id);
  }

  lemma ApplyNew(t: Table, row: Row, c: Change, i: nat)
    requires i < |t.cards| && (c.action.Superseded? && c.oldCardId.Some? ==> t.cards[i].id != c.oldCardId.value)
    ensures i < |ApplyChange(t, row, c).cards| && ApplyChange(t, row, c).cards[i] == t.cards[i]
  {
  }

  lemma ShapeStep(start: Table, t: Table, rows: seq<Row>, changes: seq<Change>, date: Day)
    requires |rows| == |changes| > 0 && ValidTable(start) && ClosesBefore(changes, date, start.nextId)
    requires Shape(start, t, rows[..|rows| - 1], changes[..|rows| - 1], date)
    ensures Shape(start, ApplyChange(t, rows[|rows| - 1], changes[|rows| - 1]), rows, changes, date)
  {
    var m, n := |rows| - 1, |start.cards|;
    var t', a, a0 := ApplyChange(t, rows[m], changes[m]), AppliedRows(changes), AppliedRows(changes[..m]);
    forall i | 0 <= i < n ensures t'.cards[i] == AfterClosing(start.cards[i], changes, date) {
      ApplyOld(start, t, rows[m], changes, date, i);
    }
    assert |t'.cards| == n + |a|;
    forall i | n <= i < |t'.cards| ensures t'.cards[i] == ToCard(rows[a[i - n]], start.nextId + (i - n)) {
      if i < |t.cards| {
        assert t.cards[i] == ToCard(rows[..m][a0[i - n]], start.nextId + (i - n));
        ApplyNew(t, rows[m], changes[m], i);
      }
    }
    ApplyKeepsValid(t, rows[m], changes[m]);
  }

  lemma ApplyKeepsValid(t: Table, row: Row, c: Change)
    requires ValidTable(t)
    ensures ValidTable(ApplyChange(t, row, c))
  {
  }

  /** The table after an import has that shape; each added card is open and equal to its row in every column. */
  lemma {:induction false} ImportShape(t: Table, rows: seq<Row>, changes: seq<Change>, date: Day)
    requires ValidTable(t) && |rows| == |changes| && ClosesBefore(changes, date, t.nextId)
    ensures Shape(t, ApplyChanges(t, rows, changes), rows, changes, date)
    ensures var added, a := ApplyChanges(t, rows, changes).cards[|t.cards|..], AppliedRows(changes);
      |added| == |a| && forall n :: 0 <= n < |a| ==> IsCardOf(added[n], rows[a[n]], t.nextId + n)
    decreases |rows|
  {
    if rows != [] {
      ImportShape(t, rows[..|rows| - 1], changes[..|rows| - 1], date);
      ShapeStep(t, ApplyChanges(t, rows[..|rows| - 1], changes[..|rows| - 1]), rows, changes, date);
    }
  }

  // ----- the past is never rewritten -----

  /** On this day both tables offer the same cards for resolution. */
  predicate SameOn(a: seq<Card>, b: seq<Card>, on: Day) {
    && |a| <= |b|
    && (forall i :: 0 <= i < |a| ==> b[i] == a[i].(to := b[i].to) && (EffectiveOn(b[i], on) <==> EffectiveOn(a[i], on)))
    && (forall i :: |a| <= i < |b| ==> !EffectiveOn(b[i], on))
  }

  /** `d` is the diff of the rows against the table. */
  predicate IsDiff(t: Table, rows: seq<Row>, d: seq<Change>, date: Day) {
    |d| == |rows| && forall k :: 0 <= k < |rows| ==> d[k] == ChangeFor(t.cards, rows[k], date)
  }

  /** What a diff closes is the current open card of a superseding row, and it started before the date. */
  lemma ClosedCardsAreOpen(t: Table, rows: seq<Row>, d: seq<Change>, date: Day, i: nat) returns (k: nat)
    requires ValidTable(t) && IsDiff(t, rows, d, date) && i < |t.cards| && Closes(d, t.cards[i].id)
    ensures k < |rows| && d[k].action.Superseded? && CurrentOpen(t.cards, rows[k].grain) == Some(i)
    ensures OpenOn(t.cards[i], rows[k].grain) && t.cards[i].from < date
  {
    k :| 0 <= k < |d| && d[k].action.Superseded? && d[k].oldCardId == Some(t.cards[i].id);
    assert d[k] == ChangeFor(t.cards, rows[k], date);
    var j := CurrentOpen(t.cards, rows[k].grain).value;
    assert t.cards[j].id == t.cards[i].id;
    assert j == i;
  }

  /** Behind `n` stored cards, position `i` holds the card of the applied row `k`. */
  predicate Adds(n: nat, t: Table, rows: seq<Row>, d: seq<Change>, i: nat, k: nat) {
    && n <= i < |t.cards| && k < |rows| == |d| && Applied(d[k])
    && i - n < |AppliedRows(d)| && AppliedRows(d)[i - n] == k
    && t.cards[i] == ToCard(rows[k], t.cards[i].id)
  }

  lemma AddedCard(start: Table, t: Table, rows: seq<Row>, d: seq<Change>, date: Day, i: nat) returns (k: nat)
    requires |rows| == |d| && Shape(start, t, rows, d, date) && |start.cards| <= i < |t.cards|
    ensures Adds(|start.cards|, t, rows, d, i, k)
  {
    k := AppliedRows(d)[i - |start.cards|];
  }

  lemma AddedRow(start: Table, t: Table, rows: seq<Row>, d: seq<Change>, date: Day, k: nat) returns (i: nat)
    requires |rows| == |d| && Shape(start, t, rows, d, date) && k < |rows| && Applied(d[k])
    ensures Adds(|start.cards|, t, rows, d, i, k)
  {
    var p := AppliedRowAt(d, k);
    i := |start.cards| + p;
    assert t.cards[i] == ToCard(rows[AppliedRows(d)[i - |start.cards|]], start.nextId + (i - |start.cards|));
  }

  lemma StoredCardKeepsDay(t: Table, t': Table, rows: seq<Row>, d: seq<Change>, date: Day, on: Day, i: nat)
    requires ValidTable(t) && IsDiff(t, rows, d, date) && Shape(t, t', rows, d, date) && on < date
    requires i < |t.cards| <= |t'.cards|
    ensures t'.cards[i] == t.cards[i].(to := t'.cards[i].to)
    ensures EffectiveOn(t'.cards[i], on) <==> EffectiveOn(t.cards[i], on)
  {
    if Closes(d, t.cards[i].id) {
      var _ := ClosedCardsAreOpen(t, rows, d, date, i);
    }
  }

  /** Before its date, and before the start of every row it adds, an import changes nothing. */
  lemma ImportKeepsDay(t: Table, rows: seq<Row>, date: Day, on: Day)
    requires ValidTable(t) && on < date
    requires forall k :: 0 <= k < |rows| && Applied(ChangeFor(t.cards, rows[k], date)) ==> on < rows[k].from
    ensures SameOn(t.cards, Import(t, rows, date).cards, on)
  {
    var changes, t' := Diff(t.cards, rows, date), Import(t, rows, date);
    DiffClosesBefore(t, rows, date);
    ImportShape(t, rows, changes, date);
    forall i | 0 <= i < |t.cards|
      ensures t'.cards[i] == t.cards[i].(to := t'.cards[i].to)
      ensures EffectiveOn(t'.cards[i], on) <==> EffectiveOn(t.cards[i], on)
    {
      StoredCardKeepsDay(t, t', rows, changes, date, on, i);
    }
    forall i | |t.cards| <= i < |t'.cards| ensures !EffectiveOn(t'.cards[i], on) {
      var _ := AddedCard(t, t', rows, changes, date, i);
    }
  }

  /**
   The past is left alone exactly when every row the import adds starts on or after its date.
   The engine does not check the rows' own dates; its callers pass the import date.
   */
  lemma PastUntouchedIff(t: Table, rows: seq<Row>, date: Day)
    requires ValidTable(t)
    ensures (forall on: Day :: on < date ==> SameOn(t.cards, Import(t, rows, date).cards, on)) <==>
      (forall k :: 0 <= k < |rows| && Applied(ChangeFor(t.cards, rows[k], date)) ==> date <= rows[k].from)
  {
    if forall k :: 0 <= k < |rows| && Applied(ChangeFor(t.cards, rows[k], date)) ==> date <= rows[k].from {
      forall on: Day | on < date ensures SameOn(t.cards, Import(t, rows, date).cards, on) {
        ImportKeepsDay(t, rows, date, on);
      }
    }
    forall k | 0 <= k < |rows| && Applied(ChangeFor(t.cards, rows[k], date)) && rows[k].from < date
      ensures !SameOn(t.cards, Import(t, rows, date).cards, rows[k].from)
    {
      BackdatedRowShows(t, rows, date, k);
    }
  }

  lemma BackdatedRowShows(t: Table, rows: seq<Row>, date: Day, k: nat)
    requires ValidTable(t) && k < |rows| && Applied(ChangeFor(t.cards, rows[k], date))
    ensures !SameOn(t.cards, Import(t, rows, date).cards, rows[k].from)
  {
    var changes, t' := Diff(t.cards, rows, date), Import(t, rows, date);
    DiffClosesBefore(t, rows, date);
    ImportShape(t, rows, changes, date);
    var i := AddedRow(t, t', rows, changes, date, k);
    assert EffectiveOn(t'.cards[i], rows[k].from);
  }

  lemma SameCardMatches(c: Card, d: Card, q: Query, model: string, on: Day)
    requires d == c.(to := d.to) && (EffectiveOn(d, on) <==> EffectiveOn(c, on))
    ensures Matches(d, q, model, on) <==> Matches(c, q, model, on)
    ensures PrecedenceOf(d, q) == PrecedenceOf(c, q)
  {
  }

  lemma BestCardSnoc(cards: seq<Card>, last: Card, q: Query, model: string, on: Day)
    ensures var best := BestCard(cards, q, model, on);
      BestCard(cards + [last], q, model, on) ==
        if !Matches(last, q, model, on) then best
        else if best.Some? && !Outranked(PrecedenceOf(cards[best.value], q), PrecedenceOf(last, q)) then best
        else Some(|cards|)
  {
    assert (cards + [last])[..|cards|] == cards;
  }

  lemma {:induction false} BestCardSameOn(a: seq<Card>, b: seq<Card>, q: Query, model: string, on: Day)
    requires SameOn(a, b, on)
    ensures BestCard(b, q, model, on) == BestCard(a, q, model, on)
    decreases |b|
  {
    if |b| > |a| {
      var init, last := b[..|b| - 1], b[|b| - 1];
      assert b == init + [last];
      BestCardSameOn(a, init, q, model, on);
      BestCardSnoc(init, last, q, model, on);
    } else if b != [] {
      var a0, b0, c, d := a[..|a| - 1], b[..|b| - 1], a[|a| - 1], b[|b| - 1];
      assert a == a0 + [c] && b == b0 + [d];
      BestCardSameOn(a0, b0, q, model, on);
      BestCardSnoc(a0, c, q, model, on);
      BestCardSnoc(b0, d, q, model, on);
      SameCardMatches(c, d, q, model, on);
      var best := BestCard(a0, q, model, on);
      if best.Some? {
        SameCardMatches(a0[best.value], b0[best.value], q, model, on);
      }
    }
  }

  /** Snapshot ids that join the list have no card on that day, so the search passes over them. */
  lemma {:induction false} FirstHitOverSnapshots(b: seq<Card>, q: Query, small: seq<string>, large: seq<string>,
      on: Day)
    requires Descending(small) && Descending(large)
    requires forall m :: m in small ==> m in large
    requires forall m :: m in large && m !in small ==> BestCard(b, q, m, on).None?
    ensures FirstHit(b, q, small, on) == FirstHit(b, q, large, on)
    decreases |large|
  {
    if large != [] {
      var rest := large[1..];
      assert forall m :: m in large <==> m == large[0] || m in rest;
      LessIrreflexive(large[0]);
      if small != [] && small[0] == large[0] {
        assert forall m :: m in small <==> m == small[0] || m in small[1..];
        FirstHitOverSnapshots(b, q, small[1..], rest, on);
      } else {
        forall i | 0 <= i < |small| ensures small[i] != large[0] {
          assert small[0] in rest;
          var j :| 0 <= j < |rest| && rest[j] == small[0];
          assert large[j + 1] == small[0];
          LessAsymmetric(small[0], large[0]);
          if i > 0 {
            LessTransitive(small[i], small[0], large[0]);
            LessAsymmetric(small[i], large[0]);
          }
        }
        FirstHitOverSnapshots(b, q, small, rest, on);
      }
    }
  }

  lemma {:induction false} FirstHitSameOn(a: seq<Card>, b: seq<Card>, q: Query, models: seq<string>, on: Day)
    requires SameOn(a, b, on)
    ensures FirstHit(a, q, models, on) == FirstHit(b, q, models, on)
    decreases |models|
  {
    if models != [] {
      BestCardSameOn(a, b, q, models[0], on);
      FirstHitSameOn(a, b, q, models[1..], on);
    }
  }

  lemma SnapshotsOverSameOn(a: seq<Card>, b: seq<Card>, q: Query, model: string, on: Day)
    requires SameOn(a, b, on)
    ensures FirstHit(b, q, Snapshots(a, q.provider, model), on) == FirstHit(b, q, Snapshots(b, q.provider, model), on)
  {
    var small, large := Snapshots(a, q.provider, model), Snapshots(b, q.provider, model);
    SnapshotsSorted(a, q.provider, model);
    SnapshotsSorted(b, q.provider, model);
    forall m | m in small ensures m in large {
      var i :| 0 <= i < |a| && IsSnapshot(a[i], q.provider, model) && a[i].grain.model == m;
      assert IsSnapshot(b[i], q.provider, model) && b[i].grain.model == m;
    }
    forall m | m in large && m !in small ensures BestCard(b, q, m, on).None? {
      BestCardIsMaximal(b, q, m, on);
      var j :| 0 <= j < |b| && IsSnapshot(b[j], q.provider, model) && b[j].grain.model == m;
      forall i | 0 <= i < |b| ensures !Matches(b[i], q, m, on) {
        if i < |a| {
          assert a[i].grain == b[i].grain;
          assert !(IsSnapshot(a[i], q.provider, model) && a[i].grain.model == m);
        }
      }
    }
    FirstHitOverSnapshots(b, q, small, large, on);
  }

  lemma SameOnResolves(a: seq<Card>, b: seq<Card>, q: Query, model: string, on: Day)
    requires SameOn(a, b, on)
    ensures Resolve(a, q, model, on) == Resolve(b, q, model, on)
  {
    var ca, cb := CandidateModels(a, q.provider, model), CandidateModels(b, q.provider, model);
    FirstHitSameOn(a, b, q, ca, on);
    if BaseModelId(model) == model {
      SnapshotsOverSameOn(a, b, q, model, on);
      assert ca[1..] == Snapshots(a, q.provider, model) && cb[1..] == Snapshots(b, q.provider, model);
      assert FirstHit(b, q, ca, on) == FirstHit(b, q, cb, on);
    }
  }

  datatype ImportJob = ImportJob(rows: seq<Row>, date: Day)

  function ImportAll(t: Table, jobs: seq<ImportJob>): Table
    decreases |jobs|
  {
    if jobs == [] then t else ImportAll(Import(t, jobs[0].rows, jobs[0].date), jobs[1..])
  }

  /** Every row of the job starts on or after the job's date, and the date lies after the given day. */
  predicate JobAfter(job: ImportJob, on: Day) {
    on < job.date && forall k :: 0 <= k < |job.rows| ==> job.date <= job.rows[k].from
  }

  lemma {:induction false} ImportsNeverChangeThePast(t: Table, jobs: seq<ImportJob>, q: Query, model: string, on: Day)
    requires ValidTable(t)
    requires forall i :: 0 <= i < |jobs| ==> JobAfter(jobs[i], on)
    ensures Resolve(ImportAll(t, jobs).cards, q, model, on) == Resolve(t.cards, q, model, on)
    decreases |jobs|
  {
    if jobs != [] {
      var job := jobs[0];
      assert JobAfter(job, on);
      var t' := Import(t, job.rows, job.date);
      ImportKeepsDay(t, job.rows, job.date, on);
      SameOnResolves(t.cards, t'.cards, q, model, on);
      DiffClosesBefore(t, job.rows, job.date);
      ImportShape(t, job.rows, Diff(t.cards, job.rows, job.date), job.date);
      ImportsNeverChangeThePast(t', jobs[1..], q, model, on);
    }
  }
}
