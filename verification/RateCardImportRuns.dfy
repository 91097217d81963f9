/**
 What imports keep over whole runs: exactly when an import preserves the no-overlap invariant,
 that importing the same rows again changes nothing, and the apply method itself.
 */
module RateCardImportRuns {
  import opened Wrappers
  import opened RateCards
  import opened RateCardAdmin
  import opened RateCardImport
  import opened RateCardDigest

  // ----- the no-overlap invariant -----

  /** The card is in force on some day from `day` on. */
  predicate Reaches(c: Card, day: Day) {
    c.from <= LastDay(c.to) && day <= LastDay(c.to)
  }

  /**
   The condition under which an import is safe, read off the diff: the rows to be added have
   distinct grains; a new row meets no stored card; a superseding row does not start before the
   day after which the card it replaces is closed.
   */
  predicate SafeChanges(t: Table, rows: seq<Row>, d: seq<Change>, date: Day)
    requires |rows| == |d|
  {
    && (forall i, j :: 0 <= i < j < |rows| && Applied(d[i]) && Applied(d[j]) ==> rows[i].grain != rows[j].grain)
    && (forall i, j ::
          0 <= i < |rows| && d[i].action.New? && 0 <= j < |t.cards| && t.cards[j].grain == rows[i].grain ==>
          !Reaches(t.cards[j], rows[i].from))
    && (forall i :: 0 <= i < |rows| && d[i].action.Superseded? ==> date <= rows[i].from)
  }

  predicate SafeImport(t: Table, rows: seq<Row>, date: Day) {
    SafeChanges(t, rows, Diff(t.cards, rows, date), date)
  }

  /** One import: the table before and after it, its rows, its diff and its date. */
  datatype ImportStep = ImportStep(before: Table, after: Table, rows: seq<Row>, diff: seq<Change>, date: Day)

  ghost predicate IsImport(x: ImportStep) {
    && ValidTable(x.before)
    && IsDiff(x.before, x.rows, x.diff, x.date)
    && Shape(x.before, x.after, x.rows, x.diff, x.date)
  }

  lemma ImportHasShape(t: Table, rows: seq<Row>, date: Day)
    requires ValidTable(t)
    ensures IsImport(ImportStep(t, Import(t, rows, date), rows, Diff(t.cards, rows, date), date))
  {
    DiffClosesBefore(t, rows, date);
    ImportShape(t, rows, Diff(t.cards, rows, date), date);
  }

  /** Position `i` after the import holds the card of the applied row `k`. */
  ghost predicate HoldsRow(x: ImportStep, i: nat, k: nat) {
    Adds(|x.before.cards|, x.after, x.rows, x.diff, i, k)
  }

  lemma OldCardAt(x: ImportStep, i: nat)
    requires IsImport(x) && i < |x.before.cards|
    ensures i < |x.after.cards| && x.after.cards[i] == AfterClosing(x.before.cards[i], x.diff, x.date)
  {
  }

  /** The cards an import adds are its applied rows, each exactly once and in order. */
  lemma NewCardAt(x: ImportStep, i: nat) returns (k: nat)
    requires IsImport(x) && |x.before.cards| <= i < |x.after.cards|
    ensures HoldsRow(x, i, k)
  {
    k := AddedCard(x.before, x.after, x.rows, x.diff, x.date, i);
  }

  /** Where an applied row ends up. */
  lemma RowPosition(x: ImportStep, k: nat) returns (i: nat)
    requires IsImport(x) && k < |x.rows| && Applied(x.diff[k])
    ensures HoldsRow(x, i, k)
  {
    i := AddedRow(x.before, x.after, x.rows, x.diff, x.date, k);
  }

  /** Closing never creates an overlap among the stored cards. */
  lemma OldPairsStayDisjoint(x: ImportStep, i: nat, j: nat)
    requires IsImport(x) && PairwiseDisjoint(x.before.cards) && i < j < |x.before.cards|
    ensures Disjoint(AfterClosing(x.before.cards[i], x.diff, x.date), AfterClosing(x.before.cards[j], x.diff, x.date))
  {
    assert Disjoint(x.before.cards[i], x.before.cards[j]);
    ClosingShortens(x, i);
    ClosingShortens(x, j);
  }

  lemma ClosingShortens(x: ImportStep, i: nat)
    requires IsImport(x) && i < |x.before.cards|
    ensures var c, c' := x.before.cards[i], AfterClosing(x.before.cards[i], x.diff, x.date);
      c' == c.(to := c'.to) && LastDay(c'.to) <= LastDay(c.to)
  {
    if Closes(x.diff, x.before.cards[i].id) {
      var _ := ClosedCardsAreOpen(x.before, x.rows, x.diff, x.date, i);
    }
  }

  /** A superseding row closes the current open card of its grain. */
  lemma ClosedIndex(x: ImportStep, k: nat) returns (r: nat)
    requires IsImport(x) && k < |x.rows| && x.diff[k].action.Superseded?
    ensures r < |x.before.cards| && OpenOn(x.before.cards[r], x.rows[k].grain) && x.before.cards[r].from < x.date
    ensures AfterClosing(x.before.cards[r], x.diff, x.date) == x.before.cards[r].(to := Some(x.date - 1))
  {
    assert x.diff[k] == ChangeFor(x.before.cards, x.rows[k], x.date);
    r := CurrentOpen(x.before.cards, x.rows[k].grain).value;
    assert x.diff[k].oldCardId == Some(x.before.cards[r].id);
    assert Closes(x.diff, x.before.cards[r].id);
  }

  /** A new row finds no open card of its grain, so nothing of its grain is closed. */
  lemma NewRowMeetsNoOpenCard(x: ImportStep, k: nat, j: nat)
    requires IsImport(x) && k < |x.rows| && x.diff[k].action.New?
    requires j < |x.before.cards| && x.before.cards[j].grain == x.rows[k].grain
    ensures AfterClosing(x.before.cards[j], x.diff, x.date) == x.before.cards[j]
  {
    assert x.diff[k] == ChangeFor(x.before.cards, x.rows[k], x.date);
    CurrentOpenIsLatest(x.before.cards, x.rows[k].grain);
    assert !OpenOn(x.before.cards[j], x.rows[k].grain);
    if Closes(x.diff, x.before.cards[j].id) {
      var _ := ClosedCardsAreOpen(x.before, x.rows, x.diff, x.date, j);
    }
  }

  /** A safe row is disjoint from every stored card once the supersessions are closed. */
  lemma SafeRowMeetsNoOldCard(x: ImportStep, k: nat, i: nat, id: nat)
    requires IsImport(x) && PairwiseDisjoint(x.before.cards) && SafeChanges(x.before, x.rows, x.diff, x.date)
    requires k < |x.rows| && Applied(x.diff[k]) && i < |x.before.cards|
    ensures Disjoint(AfterClosing(x.before.cards[i], x.diff, x.date), ToCard(x.rows[k], id))
  {
    var c := x.before.cards[i];
    ClosingShortens(x, i);
    if c.grain == x.rows[k].grain {
      if x.diff[k].action.New? {
        NewRowMeetsNoOpenCard(x, k, i);
      } else {
        var r := ClosedIndex(x, k);
        if i != r {
          AnyPairDisjoint(x.before.cards, i, r);
        }
      }
    }
  }

  lemma NewPairDisjoint(x: ImportStep, i: nat, j: nat)
    requires IsImport(x) && SafeChanges(x.before, x.rows, x.diff, x.date)
    requires |x.before.cards| <= i < j < |x.after.cards|
    ensures Disjoint(x.after.cards[i], x.after.cards[j])
  {
    var k := NewCardAt(x, i);
    var l := NewCardAt(x, j);
    AppliedRowsMeaning(x.diff);
    assert k < l && x.rows[k].grain != x.rows[l].grain;
  }

  lemma SafeStepKeepsDisjoint(x: ImportStep)
    requires IsImport(x) && PairwiseDisjoint(x.before.cards) && SafeChanges(x.before, x.rows, x.diff, x.date)
    ensures PairwiseDisjoint(x.after.cards)
  {
    var n := |x.before.cards|;
    forall i, j | 0 <= i < j < |x.after.cards| ensures Disjoint(x.after.cards[i], x.after.cards[j]) {
      if j < n {
        OldCardAt(x, i);
        OldCardAt(x, j);
        OldPairsStayDisjoint(x, i, j);
      } else if i < n {
        OldCardAt(x, i);
        var k := NewCardAt(x, j);
        SafeRowMeetsNoOldCard(x, k, i, x.after.cards[j].id);
      } else {
        NewPairDisjoint(x, i, j);
      }
    }
  }

  lemma SafeImportKeepsNoOverlap(t: Table, rows: seq<Row>, date: Day)
    requires ValidTable(t) && NoOverlap(t.cards) && SafeImport(t, rows, date)
    ensures NoOverlap(Import(t, rows, date).cards)
  {
    ImportHasShape(t, rows, date);
    NoOverlapMeaning(t.cards);
    SafeStepKeepsDisjoint(ImportStep(t, Import(t, rows, date), rows, Diff(t.cards, rows, date), date));
    NoOverlapMeaning(Import(t, rows, date).cards);
  }

  lemma UnsafePairOverlaps(x: ImportStep, i: nat, j: nat)
    requires IsImport(x) && i < j < |x.rows| && x.rows[i].grain == x.rows[j].grain
    requires Applied(x.diff[i]) && Applied(x.diff[j])
    ensures !PairwiseDisjoint(x.after.cards)
  {
    var p := RowPosition(x, i);
    var q := RowPosition(x, j);
    TwoRowsClash(|x.before.cards|, x.after, x.rows, x.diff, p, i, q, j);
  }

  lemma TwoRowsClash(n: nat, t: Table, rows: seq<Row>, d: seq<Change>, p: nat, i: nat, q: nat, j: nat)
    requires Adds(n, t, rows, d, p, i) && Adds(n, t, rows, d, q, j) && i != j && rows[i].grain == rows[j].grain
    ensures !PairwiseDisjoint(t.cards)
  {
    OpenCardsClash(t.cards, p, q);
  }

  lemma OpenCardsClash(cards: seq<Card>, p: nat, q: nat)
    requires p < |cards| && q < |cards| && p != q && cards[p].grain == cards[q].grain
    requires cards[p].to.None? && cards[q].to.None?
    ensures !PairwiseDisjoint(cards)
  {
    assert !Disjoint(cards[if p < q then p else q], cards[if p < q then q else p]);
  }

  lemma UnsafeNewOverlaps(x: ImportStep, k: nat, j: nat)
    requires IsImport(x) && k < |x.rows| && x.diff[k].action.New?
    requires j < |x.before.cards| && x.before.cards[j].grain == x.rows[k].grain
    requires Reaches(x.before.cards[j], x.rows[k].from)
    ensures !PairwiseDisjoint(x.after.cards)
  {
    var p := RowPosition(x, k);
    NewRowMeetsNoOpenCard(x, k, j);
    OldCardAt(x, j);
    assert !Disjoint(x.after.cards[j], x.after.cards[p]);
  }

  lemma BackdatedSupersedeOverlaps(x: ImportStep, k: nat)
    requires IsImport(x) && k < |x.rows| && x.diff[k].action.Superseded? && x.rows[k].from < x.date
    ensures !PairwiseDisjoint(x.after.cards)
  {
    var p := RowPosition(x, k);
    var r := ClosedIndex(x, k);
    OldCardAt(x, r);
    assert !Disjoint(x.after.cards[r], x.after.cards[p]);
  }

  lemma DisjointOnlyIfSafe(x: ImportStep)
    requires IsImport(x) && PairwiseDisjoint(x.after.cards)
    ensures SafeChanges(x.before, x.rows, x.diff, x.date)
  {
    var t, rows, d := x.before, x.rows, x.diff;
    forall i, j | 0 <= i < j < |rows| && Applied(d[i]) && Applied(d[j]) ensures rows[i].grain != rows[j].grain {
      if rows[i].grain == rows[j].grain {
        UnsafePairOverlaps(x, i, j);
      }
    }
    forall i, j | 0 <= i < |rows| && d[i].action.New? && 0 <= j < |t.cards| && t.cards[j].grain == rows[i].grain
      ensures !Reaches(t.cards[j], rows[i].from)
    {
      if Reaches(t.cards[j], rows[i].from) {
        UnsafeNewOverlaps(x, i, j);
      }
    }
    forall i | 0 <= i < |rows| && d[i].action.Superseded? ensures x.date <= rows[i].from {
      if rows[i].from < x.date {
        BackdatedSupersedeOverlaps(x, i);
      }
    }
  }

  /** An import keeps the invariant exactly when it is safe. The engine itself does not check this. */
  lemma ImportKeepsNoOverlapIff(t: Table, rows: seq<Row>, date: Day)
    requires ValidTable(t) && NoOverlap(t.cards)
    ensures NoOverlap(Import(t, rows, date).cards) <==> SafeImport(t, rows, date)
  {
    if SafeImport(t, rows, date) {
      SafeImportKeepsNoOverlap(t, rows, date);
    }
    if NoOverlap(Import(t, rows, date).cards) {
      NoOverlapMeaning(Import(t, rows, date).cards);
      ImportHasShape(t, rows, date);
      DisjointOnlyIfSafe(ImportStep(t, Import(t, rows, date), rows, Diff(t.cards, rows, date), date));
    }
  }

  /**
   A price list dated on its import date, over a table whose one card of the grain was closed for a later
   day. No card is open, so the row is taken as new, and both cards are in force until that day.
   */
  lemma NewRowMeetsClosedCard(g: Grain)
    ensures var closed := Card(0, g, 1, Some(20), false, 1.0, "USD", "manual");
      var row, t := Row(g, 10, false, 2.0, "USD", "list"), Table([closed], 1);
      && NoOverlap(t.cards) && ChangeFor(t.cards, row, 10).action.New?
      && !NoOverlap(Import(t, [row], 10).cards)
  {
    var closed := Card(0, g, 1, Some(20), false, 1.0, "USD", "manual");
    var row, t := Row(g, 10, false, 2.0, "USD", "list"), Table([closed], 1);
    assert t.cards[..0] == [];
    assert CurrentOpen(t.cards, g) == CurrentOpen([], g);
    NoOverlapMeaning(t.cards);
    ImportKeepsNoOverlapIff(t, [row], 10);
    assert Diff(t.cards, [row], 10)[0].action.New? && t.cards[0].grain == [row][0].grain && Reaches(t.cards[0], 10);
  }

  // ----- runs over all three kinds of change -----

  datatype TableChange =
    | Created(card: Card)
    | Closed(index: nat, to: Day)
    | RowsImported(rows: seq<Row>, date: Day)

  /** What each operation's guard, or its safe use, asks of the table it meets. */
  predicate Allowed(t: Table, c: TableChange) {
    match c
    case Created(card) => card.id == t.nextId
      && forall i :: 0 <= i < |t.cards| ==> !Conflicts(t.cards[i], card.grain, card.from, card.to, None)
    case Closed(i, to) => i < |t.cards| && to <= LastDay(t.cards[i].to)
    case RowsImported(rows, date) => SafeImport(t, rows, date)
  }

  function Perform(t: Table, c: TableChange): Table {
    match c
    case Created(card) => Table(t.cards + [card], t.nextId + 1)
    case Closed(i, to) => if i < |t.cards| then t.(cards := WithEnd(t.cards, t.cards[i].id, to)) else t
    case RowsImported(rows, date) => Import(t, rows, date)
  }

  predicate AllowedRun(t: Table, run: seq<TableChange>)
    decreases |run|
  {
    run == [] || (Allowed(t, run[0]) && AllowedRun(Perform(t, run[0]), run[1..]))
  }

  function PerformAll(t: Table, run: seq<TableChange>): Table
    decreases |run|
  {
    if run == [] then t else PerformAll(Perform(t, run[0]), run[1..])
  }

  /** Over any run of guarded creations, shortening closes and safe imports, no grain ever has two prices on a day. */
  lemma {:induction false} RunKeepsNoOverlap(t: Table, run: seq<TableChange>)
    requires ValidTable(t) && NoOverlap(t.cards) && AllowedRun(t, run)
    ensures ValidTable(PerformAll(t, run)) && NoOverlap(PerformAll(t, run).cards)
    decreases |run|
  {
    if run != [] {
      match run[0] {
        case Created(card) => GuardedInsertKeepsNoOverlap(t.cards, card);
        case Closed(i, to) => ShorteningCloseIsSafe(t, i, to);
        case RowsImported(rows, date) =>
          SafeImportKeepsNoOverlap(t, rows, date);
          ImportHasShape(t, rows, date);
      }
      RunKeepsNoOverlap(Perform(t, run[0]), run[1..]);
    }
  }

  // ----- importing again -----

  predicate DistinctGrains(rows: seq<Row>) {
    forall i, j :: 0 <= i < j < |rows| ==> rows[i].grain != rows[j].grain
  }

  /** A later table that shows the same open cards on a grain has the same current one. */
  lemma {:induction false} CurrentOpenStable(a: seq<Card>, b: seq<Card>, g: Grain)
    requires |a| <= |b|
    requires forall i :: 0 <= i < |a| ==> (OpenOn(a[i], g) <==> OpenOn(b[i], g)) && a[i].from == b[i].from
    requires forall i :: |a| <= i < |b| ==> !OpenOn(b[i], g)
    ensures CurrentOpen(a, g) == CurrentOpen(b, g)
    decreases |b|
  {
    if |b| > |a| {
      CurrentOpenStable(a, b[..|b| - 1], g);
    } else if b != [] {
      CurrentOpenStable(a[..|a| - 1], b[..|b| - 1], g);
    }
  }

  /** A card added on the grain of row `k` is the card of row `k`. */
  lemma AddedOnGrain(x: ImportStep, k: nat, i: nat)
    requires IsImport(x) && DistinctGrains(x.rows) && k < |x.rows|
    requires |x.before.cards| <= i < |x.after.cards| && x.after.cards[i].grain == x.rows[k].grain
    ensures Applied(x.diff[k]) && x.after.cards[i].price == x.rows[k].price
  {
    var l := NewCardAt(x, i);
    assert l == k;
  }

  /** An open card of the row's grain that the change does not close and that starts no earlier than the row. */
  predicate IsRival(c: Card, row: Row, change: Change) {
    OpenOn(c, row.grain) && change.oldCardId != Some(c.id) && row.from <= c.from
  }

  /** No superseding row has a rival. */
  predicate Unrivalled(cards: seq<Card>, rows: seq<Row>, d: seq<Change>)
    requires |rows| == |d|
  {
    forall k, i :: 0 <= k < |rows| && d[k].action.Superseded? && 0 <= i < |cards| ==> !IsRival(cards[i], rows[k], d[k])
  }

  lemma RowHasNoRival(t: Table, row: Row, date: Day, i: nat)
    requires ValidTable(t) && (PairwiseDisjoint(t.cards) || date <= row.from)
    requires ChangeFor(t.cards, row, date).action.Superseded? && i < |t.cards|
    ensures !IsRival(t.cards[i], row, ChangeFor(t.cards, row, date))
  {
    CurrentOpenIsLatest(t.cards, row.grain);
    if PairwiseDisjoint(t.cards) && IsRival(t.cards[i], row, ChangeFor(t.cards, row, date)) {
      OpenCardsClash(t.cards, CurrentOpen(t.cards, row.grain).value, i);
    }
  }

  /** There is no rival in a table without overlaps, nor to rows that start on or after the import date. */
  lemma UnrivalledWhen(t: Table, rows: seq<Row>, date: Day)
    requires ValidTable(t)
    requires NoOverlap(t.cards) || forall i :: 0 <= i < |rows| ==> date <= rows[i].from
    ensures Unrivalled(t.cards, rows, Diff(t.cards, rows, date))
  {
    NoOverlapMeaning(t.cards);
    var d := Diff(t.cards, rows, date);
    forall k, i | 0 <= k < |rows| && d[k].action.Superseded? && 0 <= i < |t.cards|
      ensures !IsRival(t.cards[i], rows[k], d[k])
    {
      assert d[k] == ChangeFor(t.cards, rows[k], date);
      RowHasNoRival(t, rows[k], date, i);
    }
  }

  /** After the import, an applied row's card is the current one of its grain. */
  lemma AppliedRowIsCurrent(x: ImportStep, k: nat)
    requires IsImport(x) && DistinctGrains(x.rows) && Unrivalled(x.before.cards, x.rows, x.diff)
    requires k < |x.rows| && Applied(x.diff[k])
    ensures var r := CurrentOpen(x.after.cards, x.rows[k].grain);
      r.Some? && x.after.cards[r.value].price == x.rows[k].price
  {
    var cards, g := x.after.cards, x.rows[k].grain;
    var p := RowPosition(x, k);
    CurrentOpenIsLatest(cards, g);
    assert OpenOn(cards[p], g);
    var r := CurrentOpen(cards, g).value;
    if r < |x.before.cards| {
      OldOpenCardIsEarlier(x, k, r);
      assert false;
    }
    AddedOnGrain(x, k, r);
  }

  /** Where a row is applied, the stored cards of its grain that stay open start before it. */
  lemma OldOpenCardIsEarlier(x: ImportStep, k: nat, i: nat)
    requires IsImport(x) && Unrivalled(x.before.cards, x.rows, x.diff) && k < |x.rows| && Applied(x.diff[k])
    requires i < |x.before.cards| && i < |x.after.cards| && OpenOn(x.after.cards[i], x.rows[k].grain)
    ensures x.after.cards[i].from < x.rows[k].from
  {
    OldCardAt(x, i);
    assert OpenOn(x.before.cards[i], x.rows[k].grain);
    assert x.diff[k] == ChangeFor(x.before.cards, x.rows[k], x.date);
    CurrentOpenIsLatest(x.before.cards, x.rows[k].grain);
  }

  /** On the grain of a row that is not applied, an import leaves the stored cards alone. */
  lemma OldCardOnIdleGrain(x: ImportStep, k: nat, i: nat)
    requires IsImport(x) && DistinctGrains(x.rows) && k < |x.rows| && i < |x.before.cards|
    requires !Applied(x.diff[k]) && x.before.cards[i].grain == x.rows[k].grain
    ensures i < |x.after.cards| && x.after.cards[i] == x.before.cards[i]
  {
    OldCardAt(x, i);
    if Closes(x.diff, x.before.cards[i].id) {
      var _ := ClosedCardsAreOpen(x.before, x.rows, x.diff, x.date, i);
    }
  }

  lemma IdleRowKeepsCurrent(x: ImportStep, k: nat)
    requires IsImport(x) && DistinctGrains(x.rows) && k < |x.rows| && !Applied(x.diff[k])
    ensures var r := CurrentOpen(x.after.cards, x.rows[k].grain);
      r.Some? && r == CurrentOpen(x.before.cards, x.rows[k].grain) && x.after.cards[r.value] == x.before.cards[r.value]
  {
    var cards, g := x.after.cards, x.rows[k].grain;
    forall i | 0 <= i < |x.before.cards|
      ensures (OpenOn(x.before.cards[i], g) <==> OpenOn(cards[i], g)) && x.before.cards[i].from == cards[i].from
    {
      OldCardAt(x, i);
      if x.before.cards[i].grain == g {
        OldCardOnIdleGrain(x, k, i);
      }
    }
    forall i | |x.before.cards| <= i < |cards| ensures !OpenOn(cards[i], g) {
      if cards[i].grain == g {
        AddedOnGrain(x, k, i);
      }
    }
    CurrentOpenStable(x.before.cards, cards, g);
    assert x.diff[k] == ChangeFor(x.before.cards, x.rows[k], x.date);
    OldCardOnIdleGrain(x, k, CurrentOpen(x.before.cards, g).value);
  }

  /** Re-running the diff finds every applied row unchanged and every conflict still a conflict. */
  lemma ReimportDiff(t: Table, rows: seq<Row>, date: Day)
    requires ValidTable(t) && DistinctGrains(rows) && Unrivalled(t.cards, rows, Diff(t.cards, rows, date))
    ensures var d, again := Diff(t.cards, rows, date), Diff(Import(t, rows, date).cards, rows, date);
      forall k :: 0 <= k < |rows| ==> again[k].action == if d[k].action.Conflict? then Conflict else Unchanged
  {
    forall k | 0 <= k < |rows|
      ensures Diff(Import(t, rows, date).cards, rows, date)[k].action ==
        if Diff(t.cards, rows, date)[k].action.Conflict? then Conflict else Unchanged
    {
      ReimportRow(t, rows, date, k);
    }
  }

  lemma ReimportRow(t: Table, rows: seq<Row>, date: Day, k: nat)
    requires ValidTable(t) && DistinctGrains(rows) && Unrivalled(t.cards, rows, Diff(t.cards, rows, date)) && k < |rows|
    ensures ChangeFor(Import(t, rows, date).cards, rows[k], date).action ==
      if Diff(t.cards, rows, date)[k].action.Conflict? then Conflict else Unchanged
  {
    var d := Diff(t.cards, rows, date);
    var x := ImportStep(t, Import(t, rows, date), rows, d, date);
    ImportHasShape(t, rows, date);
    assert d[k] == ChangeFor(t.cards, rows[k], date);
    if Applied(d[k]) {
      AppliedRowIsCurrent(x, k);
    } else {
      IdleRowKeepsCurrent(x, k);
    }
  }

  lemma {:induction false} NothingToApply(t: Table, rows: seq<Row>, changes: seq<Change>)
    requires |rows| == |changes| && forall k :: 0 <= k < |changes| ==> !Applied(changes[k])
    ensures ApplyChanges(t, rows, changes) == t
    decreases |rows|
  {
    if rows != [] {
      NothingToApply(t, rows[..|rows| - 1], changes[..|rows| - 1]);
    }
  }

  /** A second apply of the same rows leaves the card table as it was. */
  lemma ReimportIsNoOp(t: Table, rows: seq<Row>, date: Day)
    requires ValidTable(t) && DistinctGrains(rows) && Unrivalled(t.cards, rows, Diff(t.cards, rows, date))
    ensures Import(Import(t, rows, date), rows, date) == Import(t, rows, date)
  {
    ReimportDiff(t, rows, date);
    var t' := Import(t, rows, date);
    var again := Diff(t'.cards, rows, date);
    forall k | 0 <= k < |rows| ensures !Applied(again[k]) {
      assert again[k].action == if Diff(t.cards, rows, date)[k].action.Conflict? then Conflict else Unchanged;
    }
    NothingToApply(t', rows, again);
  }

  // ----- the apply method -----

  datatype ImportOutcome =
    | DigestMismatch
    | Imported(created: nat, superseded: nat, conflicts: nat, same: nat)

  function CountAction(changes: seq<Change>, action: Action): nat {
    if changes == [] then 0
    else CountAction(changes[..|changes| - 1], action) + if changes[|changes| - 1].action == action then 1 else 0
  }

  /** Takes one change over to the table. */
  method TakeOver(cards: RateCardTable, row: Row, change: Change)
    requires change.action.Superseded? ==> change.oldCardId.Some? && change.closeTo.Some?
    modifies cards
    ensures cards.table == ApplyChange(old(cards.table), row, change)
  {
    match change.action {
      case New =>
        cards.table := Table(cards.table.cards + [ToCard(row, cards.table.nextId)], cards.table.nextId + 1);
      case Superseded =>
        var closed := WithEnd(cards.table.cards, change.oldCardId.value, change.closeTo.value);
        cards.table := Table(closed + [ToCard(row, cards.table.nextId)], cards.table.nextId + 1);
      case _ =>
    }
  }

  lemma ApplySnoc(t: Table, rows: seq<Row>, changes: seq<Change>, i: nat)
    requires i < |rows| == |changes|
    ensures ApplyChanges(t, rows[..i + 1], changes[..i + 1]) ==
            ApplyChange(ApplyChanges(t, rows[..i], changes[..i]), rows[i], changes[i])
  {
    assert rows[..i + 1][..i] == rows[..i] && changes[..i + 1][..i] == changes[..i];
  }

  lemma CountSnoc(changes: seq<Change>, i: nat, action: Action)
    requires i < |changes|
    ensures CountAction(changes[..i + 1], action) ==
            CountAction(changes[..i], action) + if changes[i].action == action then 1 else 0
  {
    assert changes[..i + 1][..i] == changes[..i];
  }

  /** Applies an import only when the digest the caller reviewed is the one of the diff computed now. */
  method ApplyImport(cards: RateCardTable, rows: seq<Row>, date: Day, expected: seq<Change>)
      returns (outcome: ImportOutcome)
    requires ValidTable(cards.table)
    modifies cards
    ensures ValidTable(cards.table)
    ensures outcome.DigestMismatch? <==> Digest(Diff(old(cards.table.cards), rows, date)) != expected
    ensures outcome.DigestMismatch? ==> cards.table == old(cards.table)
    ensures outcome.Imported? ==> cards.table == Import(old(cards.table), rows, date)
    ensures outcome.Imported? ==>
      var d := Diff(old(cards.table.cards), rows, date);
      && outcome.created == CountAction(d, New) && outcome.superseded == CountAction(d, Superseded)
      && outcome.conflicts == CountAction(d, Conflict) && outcome.same == CountAction(d, Unchanged)
  {
    var diff := ComputeImportDiff(cards.table.cards, rows, date);
    ghost var start := cards.table;
    DiffClosesBefore(start, rows, date);
    ImportHasShape(start, rows, date);
    if Digest(diff) != expected {
      return DigestMismatch;
    }
    var created, superseded, conflicts, same := 0, 0, 0, 0;
    var i := 0;
    while i < |rows|
      invariant 0 <= i <= |rows|
      invariant cards.table == ApplyChanges(start, rows[..i], diff[..i])
      invariant created == CountAction(diff[..i], New) && superseded == CountAction(diff[..i], Superseded)
      invariant conflicts == CountAction(diff[..i], Conflict) && same == CountAction(diff[..i], Unchanged)
    {
      ApplySnoc(start, rows, diff, i);
      CountSnoc(diff, i, New);
      CountSnoc(diff, i, Superseded);
      CountSnoc(diff, i, Conflict);
      CountSnoc(diff, i, Unchanged);
      TakeOver(cards, rows[i], diff[i]);
      match diff[i].action {
        case New => created := created + 1;
        case Superseded => superseded := superseded + 1;
        case Conflict => conflicts := conflicts + 1;
        case Unchanged => same := same + 1;
      }
      i := i + 1;
    }
    assert rows[..i] == rows && diff[..i] == diff;
    outcome := Imported(created, superseded, conflicts, same);
  }
}
