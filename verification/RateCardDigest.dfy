/**
 The digest of an import's diff: a dry run returns it, and an apply is accepted only with the digest
 of the diff it computes itself. The digest covers the changes, each with its columns, in a stable
 order; it does not cover the rows, the import date or the stored cards they were computed from.
 */
module RateCardDigest {
  import opened Wrappers
  import opened Ordering
  import opened RateCards
  import opened RateCardAdmin
  import opened RateCardImport

  predicate KeyLessOrEqual(a: Change, b: Change) {
    || Less(a.provider, b.provider)
    || (a.provider == b.provider && Less(a.model, b.model))
    || (a.provider == b.provider && a.model == b.model && Less(a.unit, b.unit))
    || (a.provider == b.provider && a.model == b.model && a.unit == b.unit && a.priority <= b.priority)
  }

  function InsertStable(c: Change, sorted: seq<Change>): (r: seq<Change>)
    ensures r != []
  {
    if sorted == [] then [c]
    else if KeyLessOrEqual(c, sorted[0]) then [c] + sorted
    else [sorted[0]] + InsertStable(c, sorted[1..])
  }

  /** The canonical form of a diff: its changes in a stable order of their keys. Hashing it is not modelled. */
  function Digest(changes: seq<Change>): seq<Change> {
    if changes == [] then [] else InsertStable(changes[0], Digest(changes[1..]))
  }

  // ----- the order of the keys -----

  predicate SameKey(a: Change, b: Change) {
    a.provider == b.provider && a.model == b.model && a.unit == b.unit && a.priority == b.priority
  }

  lemma KeysAreOrdered(a: Change, b: Change)
    ensures KeyLessOrEqual(a, b) || KeyLessOrEqual(b, a)
    ensures KeyLessOrEqual(a, b) && KeyLessOrEqual(b, a) <==> SameKey(a, b)
  {
    LessTotal(a.provider, b.provider);
    LessTotal(a.model, b.model);
    LessTotal(a.unit, b.unit);
    LessIrreflexive(a.provider);
    LessIrreflexive(a.model);
    LessIrreflexive(a.unit);
    if Less(a.provider, b.provider) { LessAsymmetric(a.provider, b.provider); }
    if Less(b.provider, a.provider) { LessAsymmetric(b.provider, a.provider); }
    if Less(a.model, b.model) { LessAsymmetric(a.model, b.model); }
    if Less(b.model, a.model) { LessAsymmetric(b.model, a.model); }
    if Less(a.unit, b.unit) { LessAsymmetric(a.unit, b.unit); }
    if Less(b.unit, a.unit) { LessAsymmetric(b.unit, a.unit); }
  }

  lemma KeysTransitive(a: Change, b: Change, c: Change)
    requires KeyLessOrEqual(a, b) && KeyLessOrEqual(b, c)
    ensures KeyLessOrEqual(a, c)
  {
    if Less(a.provider, b.provider) && Less(b.provider, c.provider) {
      LessTransitive(a.provider, b.provider, c.provider);
    }
    if Less(a.model, b.model) && Less(b.model, c.model) { LessTransitive(a.model, b.model, c.model); }
    if Less(a.unit, b.unit) && Less(b.unit, c.unit) { LessTransitive(a.unit, b.unit, c.unit); }
  }

  /** The changes with the key of `k`, in the order of the list. */
  function OfKey(changes: seq<Change>, k: Change): seq<Change> {
    if changes == [] then []
    else (if SameKey(changes[0], k) then [changes[0]] else []) + OfKey(changes[1..], k)
  }

  predicate SortedByKey(changes: seq<Change>) {
    forall i, j :: 0 <= i < j < |changes| ==> KeyLessOrEqual(changes[i], changes[j])
  }

  /** A change that comes before the first of a sorted list comes before all of them. */
  lemma SortedCons(c: Change, sorted: seq<Change>)
    requires SortedByKey(sorted) && (sorted != [] ==> KeyLessOrEqual(c, sorted[0]))
    ensures SortedByKey([c] + sorted)
  {
    forall j | 0 < j < |sorted| ensures KeyLessOrEqual(c, sorted[j]) {
      KeysTransitive(c, sorted[0], sorted[j]);
    }
  }

  lemma SortedTail(sorted: seq<Change>)
    requires SortedByKey(sorted) && sorted != []
    ensures SortedByKey(sorted[1..])
  {
    var rest := sorted[1..];
    forall i, j | 0 <= i < j < |rest| ensures KeyLessOrEqual(rest[i], rest[j]) {
      assert rest[i] == sorted[i + 1] && rest[j] == sorted[j + 1];
    }
  }

  lemma {:induction false} InsertStableSorts(c: Change, sorted: seq<Change>)
    requires SortedByKey(sorted)
    ensures SortedByKey(InsertStable(c, sorted))
    ensures InsertStable(c, sorted)[0] in {c} + (if sorted == [] then {} else {sorted[0]})
    ensures multiset(InsertStable(c, sorted)) == multiset(sorted) + multiset{c}
    decreases |sorted|
  {
    if sorted == [] || KeyLessOrEqual(c, sorted[0]) {
      SortedCons(c, sorted);
      assert InsertStable(c, sorted) == [c] + sorted;
    } else {
      var head, rest := sorted[0], sorted[1..];
      assert sorted == [head] + rest;
      SortedTail(sorted);
      InsertStableSorts(c, rest);
      KeysAreOrdered(c, head);
      SortedCons(head, InsertStable(c, rest));
    }
  }

  lemma {:induction false} InsertStableOfKey(c: Change, sorted: seq<Change>, k: Change)
    ensures OfKey(InsertStable(c, sorted), k) == (if SameKey(c, k) then [c] else []) + OfKey(sorted, k)
    decreases |sorted|
  {
    var r := InsertStable(c, sorted);
    if sorted == [] || KeyLessOrEqual(c, sorted[0]) {
      assert r[1..] == sorted;
    } else {
      assert r[0] == sorted[0] && r[1..] == InsertStable(c, sorted[1..]);
      InsertStableOfKey(c, sorted[1..], k);
      KeysAreOrdered(c, sorted[0]);
    }
  }

  /** The digest is sorted, loses no change, and keeps changes of one key in their order. */
  lemma {:induction false} DigestMeaning(changes: seq<Change>, k: Change)
    ensures SortedByKey(Digest(changes)) && multiset(Digest(changes)) == multiset(changes)
    ensures OfKey(Digest(changes), k) == OfKey(changes, k)
    decreases |changes|
  {
    if changes != [] {
      DigestMeaning(changes[1..], k);
      InsertStableSorts(changes[0], Digest(changes[1..]));
      InsertStableOfKey(changes[0], Digest(changes[1..]), k);
      assert changes == [changes[0]] + changes[1..];
    }
  }

  lemma {:induction false} OfKeyMembers(changes: seq<Change>, k: Change)
    ensures forall c :: c in OfKey(changes, k) <==> c in changes && SameKey(c, k)
    decreases |changes|
  {
    if changes != [] {
      OfKeyMembers(changes[1..], k);
    }
  }

  /** Sorted lists begin with the same key when each contains the other's first key. */
  lemma SameFirst(a: seq<Change>, b: seq<Change>)
    requires SortedByKey(a) && SortedByKey(b) && a != [] && forall k :: OfKey(a, k) == OfKey(b, k)
    ensures b != [] && a[0] == b[0]
  {
    OfKeyMembers(a, a[0]);
    OfKeyMembers(b, a[0]);
    assert a[0] in OfKey(b, a[0]);
    OfKeyMembers(a, b[0]);
    OfKeyMembers(b, b[0]);
    assert b[0] in OfKey(a, b[0]);
    KeysAreOrdered(a[0], b[0]);
    assert SameKey(a[0], b[0]);
    assert OfKey(a, a[0])[0] == a[0];
    assert OfKey(b, a[0])[0] == b[0];
  }

  lemma {:induction false} SortedDetermined(a: seq<Change>, b: seq<Change>)
    requires SortedByKey(a) && SortedByKey(b) && forall k :: OfKey(a, k) == OfKey(b, k)
    ensures a == b
    decreases |a|
  {
    if a == [] {
      if b != [] {
        SameFirst(b, a);
      }
    } else {
      SameFirst(a, b);
      forall k ensures OfKey(a[1..], k) == OfKey(b[1..], k) {
        assert OfKey(a, k) == OfKey(b, k);
        var head := if SameKey(a[0], k) then [a[0]] else [];
        assert OfKey(a, k)[|head|..] == OfKey(a[1..], k) && OfKey(b, k)[|head|..] == OfKey(b[1..], k);
      }
      assert forall i :: 0 <= i < |a[1..]| ==> a[1..][i] == a[i + 1];
      assert forall i :: 0 <= i < |b[1..]| ==> b[1..][i] == b[i + 1];
      SortedDetermined(a[1..], b[1..]);
      assert a == [a[0]] + a[1..] && b == [b[0]] + b[1..];
    }
  }

  lemma DigestFacts(changes: seq<Change>)
    ensures SortedByKey(Digest(changes)) && multiset(Digest(changes)) == multiset(changes)
    ensures forall k :: OfKey(Digest(changes), k) == OfKey(changes, k)
  {
    forall k ensures OfKey(Digest(changes), k) == OfKey(changes, k) {
      DigestMeaning(changes, k);
    }
    var any := Row(Grain("", "", "", None, "", None, 0), 1, false, 0.0, "", "");
    DigestMeaning(changes, MakeChange(any, New, None, None));
  }

  /** The two lists have the same changes for every key, in the same order. */
  ghost predicate AgreeByKey(a: seq<Change>, b: seq<Change>) {
    forall k :: OfKey(a, k) == OfKey(b, k)
  }

  /** Two diffs have one digest exactly when they list the same changes for every key, in the same order. */
  lemma DigestsEqualIff(a: seq<Change>, b: seq<Change>)
    ensures Digest(a) == Digest(b) <==> AgreeByKey(a, b)
    ensures Digest(a) == Digest(b) ==> multiset(a) == multiset(b)
  {
    DigestFacts(a);
    DigestFacts(b);
    if AgreeByKey(a, b) {
      forall k ensures OfKey(Digest(a), k) == OfKey(Digest(b), k) {
        assert OfKey(a, k) == OfKey(b, k);
      }
      SortedDetermined(Digest(a), Digest(b));
    }
  }

  // ----- what a confirmed digest pins down -----

  predicate SameKeys(a: seq<Change>, b: seq<Change>) {
    |a| == |b| && forall i :: 0 <= i < |a| ==> SameKey(a[i], b[i])
  }

  lemma {:induction false} InsertStableKeys(c: Change, a: seq<Change>, d: Change, b: seq<Change>)
    requires SameKey(c, d) && SameKeys(a, b)
    ensures SameKeys(InsertStable(c, a), InsertStable(d, b))
    ensures InsertStable(c, a) == InsertStable(d, b) ==> c == d && a == b
    decreases |a|
  {
    if a != [] {
      assert SameKey(a[0], b[0]);
      if KeyLessOrEqual(c, a[0]) {
        assert InsertStable(c, a)[1..] == a && InsertStable(d, b)[1..] == b;
      } else {
        InsertStableKeys(c, a[1..], d, b[1..]);
        assert InsertStable(c, a)[1..] == InsertStable(c, a[1..]);
        assert InsertStable(d, b)[1..] == InsertStable(d, b[1..]);
        assert a == [a[0]] + a[1..] && b == [b[0]] + b[1..];
      }
    }
  }

  lemma {:induction false} DigestKeys(a: seq<Change>, b: seq<Change>)
    requires SameKeys(a, b)
    ensures SameKeys(Digest(a), Digest(b))
    ensures Digest(a) == Digest(b) ==> a == b
    decreases |a|
  {
    if a != [] {
      DigestKeys(a[1..], b[1..]);
      assert SameKey(a[0], b[0]);
      InsertStableKeys(a[0], Digest(a[1..]), b[0], Digest(b[1..]));
      assert a == [a[0]] + a[1..] && b == [b[0]] + b[1..];
    }
  }

  lemma ChangeKey(cards: seq<Card>, row: Row, date: Day)
    ensures var c, g := ChangeFor(cards, row, date), row.grain;
      c.provider == g.provider && c.model == g.model && c.unit == g.unit && c.priority == g.priority
  {
  }

  lemma DiffKeys(reviewed: seq<Card>, stored: seq<Card>, rows: seq<Row>, date: Day)
    ensures SameKeys(Diff(reviewed, rows, date), Diff(stored, rows, date))
  {
    forall i | 0 <= i < |rows|
      ensures SameKey(Diff(reviewed, rows, date)[i], Diff(stored, rows, date)[i])
    {
      ChangeKey(reviewed, rows[i], date);
      ChangeKey(stored, rows[i], date);
    }
  }

  /**
   For one list of rows, equal digests mean equal diffs: the same action, the same card closed on
   the same day, row by row. Sorting loses nothing.
   */
  lemma DigestDeterminesDiff(reviewed: seq<Card>, stored: seq<Card>, rows: seq<Row>, date: Day)
    requires Digest(Diff(reviewed, rows, date)) == Digest(Diff(stored, rows, date))
    ensures Diff(reviewed, rows, date) == Diff(stored, rows, date)
  {
    DiffKeys(reviewed, stored, rows, date);
    DigestKeys(Diff(reviewed, rows, date), Diff(stored, rows, date));
  }

  /**
   Over any stored cards, rows and dates of the dry run and of the apply: the digest is accepted exactly
   when the same changes are listed for every provider, model, unit and priority, in the same order. The
   same cards are then closed on the same days, and equally many rows are added with equal prices.
   */
  lemma AcceptedIff(reviewed: seq<Card>, stored: seq<Card>, rows: seq<Row>, rows': seq<Row>, date: Day, date': Day)
    ensures var a, b := Diff(reviewed, rows, date), Diff(stored, rows', date');
      && (Digest(a) == Digest(b) <==> AgreeByKey(a, b))
      && (Digest(a) == Digest(b) ==> multiset(a) == multiset(b))
  {
    DigestsEqualIff(Diff(reviewed, rows, date), Diff(stored, rows', date'));
  }

  /** The rows of one price list as they are dated on a day: an import dates its rows itself. */
  function Dated(rows: seq<Row>, date: Day): (r: seq<Row>)
    ensures |r| == |rows| && forall i :: 0 <= i < |r| ==> r[i] == rows[i].(from := date)
  {
    if rows == [] then [] else Dated(rows[..|rows| - 1], date) + [rows[|rows| - 1].(from := date)]
  }

  /**
   One price list over one table, reviewed on one day and applied on a later one: the apply is accepted
   exactly when no row then supersedes a card. All it does in that case is to add rows that start on
   another day than the reviewed ones.
   */
  lemma AcceptedOnLaterDayIff(cards: seq<Card>, rows: seq<Row>, date: Day, later: Day)
    requires date < later
    ensures var a, b := Diff(cards, Dated(rows, date), date), Diff(cards, Dated(rows, later), later);
      Digest(a) == Digest(b) <==> forall i :: 0 <= i < |b| ==> !b[i].action.Superseded?
  {
    var a, b := Diff(cards, Dated(rows, date), date), Diff(cards, Dated(rows, later), later);
    forall i | 0 <= i < |rows| ensures SameKey(a[i], b[i]) && (a[i] == b[i] <==> !b[i].action.Superseded?) {
      SameRowLater(cards, rows[i], date, later);
    }
    DigestKeys(a, b);
    SameWhere(a, b);
  }

  lemma SameWhere(a: seq<Change>, b: seq<Change>)
    requires |a| == |b| && forall i :: 0 <= i < |a| ==> (a[i] == b[i] <==> !b[i].action.Superseded?)
    ensures a == b <==> forall i :: 0 <= i < |b| ==> !b[i].action.Superseded?
  {
  }

  lemma SameRowLater(cards: seq<Card>, row: Row, date: Day, later: Day)
    requires date < later
    ensures var a, b := ChangeFor(cards, row.(from := date), date), ChangeFor(cards, row.(from := later), later);
      SameKey(a, b) && (a == b <==> !b.action.Superseded?)
  {
  }

  // ----- when an accepted apply leaves the reviewed table -----

  /** The rows that a diff applies, in order. */
  function RowsApplied(rows: seq<Row>, changes: seq<Change>): (r: seq<Row>)
    requires |rows| == |changes|
    ensures |r| == |AppliedRows(changes)| && forall n :: 0 <= n < |r| ==> r[n] == rows[AppliedRows(changes)[n]]
  {
    seq(|AppliedRows(changes)|, n requires 0 <= n < |AppliedRows(changes)| => rows[AppliedRows(changes)[n]])
  }

  /** The same changes close the same cards for the same day. */
  lemma SameClosings(c: Card, a: seq<Change>, date: Day, b: seq<Change>, date': Day, bound: nat)
    requires multiset(a) == multiset(b) && ClosesBefore(a, date, bound) && ClosesBefore(b, date', bound)
    ensures AfterClosing(c, a, date) == AfterClosing(c, b, date')
  {
    ClosingIsShared(c.id, a, date, b, date', bound);
    ClosingIsShared(c.id, b, date', a, date, bound);
  }

  lemma ClosingIsShared(id: nat, a: seq<Change>, date: Day, b: seq<Change>, date': Day, bound: nat)
    requires multiset(a) == multiset(b) && ClosesBefore(a, date, bound) && ClosesBefore(b, date', bound)
    ensures Closes(a, id) ==> Closes(b, id) && date == date'
  {
    if Closes(a, id) {
      var k :| 0 <= k < |a| && a[k].action.Superseded? && a[k].oldCardId == Some(id);
      assert a[k] in multiset(b);
      var j :| 0 <= j < |b| && b[j] == a[k];
      assert b[j].closeTo == Some(date' - 1) && a[k].closeTo == Some(date - 1);
    }
  }

  /** What an import leaves: the stored cards, some of them closed, then a card for every applied row. */
  lemma ImportedCards(t: Table, rows: seq<Row>, date: Day)
    requires ValidTable(t)
    ensures var d, after := Diff(t.cards, rows, date), Import(t, rows, date);
      && ClosesBefore(d, date, t.nextId)
      && |after.cards| == |t.cards| + |RowsApplied(rows, d)| && after.nextId == t.nextId + |RowsApplied(rows, d)|
      && (forall i :: 0 <= i < |t.cards| ==> after.cards[i] == AfterClosing(t.cards[i], d, date))
      && (forall n :: 0 <= n < |RowsApplied(rows, d)| ==>
            after.cards[|t.cards| + n] == ToCard(RowsApplied(rows, d)[n], t.nextId + n))
  {
    var d := Diff(t.cards, rows, date);
    DiffClosesBefore(t, rows, date);
    ImportShape(t, rows, d, date);
  }

  /**
   An apply that is accepted against the same stored cards leaves the table that was reviewed exactly
   when the rows it applies are, one by one, the rows that the dry run would have applied.
   */
  lemma AppliedAsReviewedIff(t: Table, rows: seq<Row>, date: Day, rows': seq<Row>, date': Day)
    requires ValidTable(t) && Digest(Diff(t.cards, rows, date)) == Digest(Diff(t.cards, rows', date'))
    ensures Import(t, rows, date) == Import(t, rows', date') <==>
      RowsApplied(rows, Diff(t.cards, rows, date)) == RowsApplied(rows', Diff(t.cards, rows', date'))
  {
    var a, b := Diff(t.cards, rows, date), Diff(t.cards, rows', date');
    var x, y := Import(t, rows, date), Import(t, rows', date');
    DigestsEqualIff(a, b);
    ImportedCards(t, rows, date);
    ImportedCards(t, rows', date');
    forall i | 0 <= i < |t.cards| ensures x.cards[i] == y.cards[i] {
      SameClosings(t.cards[i], a, date, b, date', t.nextId);
    }
    SameAppendedIff(t, x, y, RowsApplied(rows, a), RowsApplied(rows', b));
  }

  /** Two tables that continue the same cards with one card for every row are equal exactly when the rows are. */
  lemma SameAppendedIff(t: Table, x: Table, y: Table, r: seq<Row>, s: seq<Row>)
    requires |x.cards| == |t.cards| + |r| && x.nextId == t.nextId + |r|
    requires |y.cards| == |t.cards| + |s| && y.nextId == t.nextId + |s|
    requires forall i :: 0 <= i < |t.cards| ==> x.cards[i] == y.cards[i]
    requires forall n :: 0 <= n < |r| ==> x.cards[|t.cards| + n] == ToCard(r[n], t.nextId + n)
    requires forall n :: 0 <= n < |s| ==> y.cards[|t.cards| + n] == ToCard(s[n], t.nextId + n)
    ensures x == y <==> r == s
  {
    if x == y {
      forall n | 0 <= n < |r| ensures r[n] == s[n] {
        assert x.cards[|t.cards| + n] == ToCard(r[n], t.nextId + n)
          && y.cards[|t.cards| + n] == ToCard(s[n], t.nextId + n);
      }
    }
    if r == s {
      forall i | 0 <= i < |x.cards| ensures x.cards[i] == y.cards[i] {
        if i >= |t.cards| {
          var n := i - |t.cards|;
          assert x.cards[|t.cards| + n] == ToCard(r[n], t.nextId + n)
            && y.cards[|t.cards| + n] == ToCard(s[n], t.nextId + n);
        }
      }
    }
  }

  /**
   In particular two rows for which no card is stored have one digest whenever their listed columns agree,
   whatever their tiers, modes, brackets, start dates, currencies and overrides are; but they store what
   they are.
   */
  lemma NewRowsShareDigest(t: Table, row: Row, date: Day, row': Row, date': Day)
    requires ValidTable(t) && CurrentOpen(t.cards, row.grain).None? && CurrentOpen(t.cards, row'.grain).None?
    requires row.grain.provider == row'.grain.provider && row.grain.model == row'.grain.model
    requires row.grain.unit == row'.grain.unit && row.grain.priority == row'.grain.priority && row.price == row'.price
    ensures Digest(Diff(t.cards, [row], date)) == Digest(Diff(t.cards, [row'], date'))
    ensures Import(t, [row], date) == Import(t, [row'], date') <==> row == row'
  {
    NewRowApplied(t, row, date);
    NewRowApplied(t, row', date');
    AppliedAsReviewedIff(t, [row], date, [row'], date');
    assert [row][0] == row && [row'][0] == row';
  }

  lemma AppliedRowsOne(c: Change)
    requires Applied(c)
    ensures AppliedRows([c]) == [0]
  {
    assert [c][..0] == [];
  }

  lemma DiffOne(cards: seq<Card>, row: Row, date: Day)
    ensures Diff(cards, [row], date) == [ChangeFor(cards, row, date)]
  {
  }

  lemma NewRowApplied(t: Table, row: Row, date: Day)
    requires CurrentOpen(t.cards, row.grain).None?
    ensures Diff(t.cards, [row], date) == [MakeChange(row, New, None, None)]
    ensures RowsApplied([row], Diff(t.cards, [row], date)) == [row]
  {
    var c := MakeChange(row, New, None, None);
    DiffOne(t.cards, row, date);
    AppliedRowsOne(c);
    var a := AppliedRows([c]);
    assert |a| == 1 && a[0] == 0;
    assert RowsApplied([row], [c])[0] == [row][a[0]] == row;
  }

  /** A dry run of one new row that is confirmed on the next day: another start date than the reviewed one. */
  lemma ConfirmedOnNextDay(price: real)
    ensures var g := Grain("anthropic", "claude", "input_token", None, "realtime", None, 0);
      var row, empty := Row(g, 10, false, price, "USD", "litellm"), Table([], 0);
      && Digest(Diff([], Dated([row], 10), 10)) == Digest(Diff([], Dated([row], 11), 11))
      && Import(empty, Dated([row], 10), 10) != Import(empty, Dated([row], 11), 11)
  {
    var g := Grain("anthropic", "claude", "input_token", None, "realtime", None, 0);
    var row, empty := Row(g, 10, false, price, "USD", "litellm"), Table([], 0);
    DatedOne(row, 10);
    DatedOne(row, 11);
    NewRowsShareDigest(empty, row.(from := 10), 10, row.(from := 11), 11);
  }

  lemma DatedOne(row: Row, date: Day)
    ensures Dated([row], date) == [row.(from := date)]
  {
  }

  /** A row set whose tier has changed since the dry run, on the same day: the digest does not see it. */
  lemma ConfirmedWithOtherTier(price: real)
    ensures var g := Grain("anthropic", "claude", "input_token", None, "realtime", None, 0);
      var row, empty := Row(g, 10, false, price, "USD", "litellm"), Table([], 0);
      var batch := row.(grain := g.(tier := Some("batch")));
      && Digest(Diff([], [row], 10)) == Digest(Diff([], [batch], 10))
      && Import(empty, [row], 10) != Import(empty, [batch], 10)
  {
    var g := Grain("anthropic", "claude", "input_token", None, "realtime", None, 0);
    var row, empty := Row(g, 10, false, price, "USD", "litellm"), Table([], 0);
    var batch := row.(grain := g.(tier := Some("batch")));
    assert row.grain.tier != batch.grain.tier;
    NewRowsShareDigest(empty, row, 10, batch, 10);
  }
}
