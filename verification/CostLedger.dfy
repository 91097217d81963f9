/**
 The cost ledger, kept apart from the usage facts, and the worker that fills it.

 Every recorded cost has a row per event and pricing version. Recording deactivates whatever was
 active for the event, so the ledger shows the whole history with one authoritative row in it.
 */
module CostLedger {
  import opened Sequences
  import opened Wrappers
  import opened CostEngine
  import KeepMax

  type Key = KeepMax.Key

  const COST_STATUSES := {"priced", "unpriced", "partial", "estimated", "error"}

  /** The priced part of a row; amounts are in micro-units. */
  datatype Cost = Cost(
    status: string,
    amount: Option<int>,
    subscriptionEquivalent: Option<int>,
    missing: seq<string>,
    billingMode: string)

  datatype Entry = Entry(key: Key, version: string, cost: Cost)

  datatype CostRow = CostRow(entry: Entry, active: bool)

  type Ledger = seq<CostRow>

  predicate Recognized(e: Entry) {
    e.cost.status in COST_STATUSES
  }

  predicate IsAt(rows: Ledger, i: int, k: Key, v: string) {
    0 <= i < |rows| && rows[i].entry.key == k && rows[i].entry.version == v
  }

  predicate Unique(rows: Ledger) {
    forall i, j :: 0 <= i < j < |rows| ==> !IsAt(rows, j, rows[i].entry.key, rows[i].entry.version)
  }

  /** The position of the row for an event and a version. */
  function Find(rows: Ledger, k: Key, v: string): (r: Option<nat>)
    ensures r.Some? ==> IsAt(rows, r.value, k, v)
    ensures r.None? ==> forall i :: !IsAt(rows, i, k, v)
  {
    if rows == [] then None
    else if IsAt(rows, |rows| - 1, k, v) then Some(|rows| - 1)
    else
      var r := Find(rows[..|rows| - 1], k, v);
      assert forall i :: 0 <= i < |rows| - 1 && IsAt(rows, i, k, v) ==> IsAt(rows[..|rows| - 1], i, k, v);
      r
  }

  function RowFor(rows: Ledger, k: Key, v: string): Option<CostRow> {
    match Find(rows, k, v)
    case None => None
    case Some(i) => Some(rows[i])
  }

  lemma FoundRow(rows: Ledger, i: nat, k: Key, v: string)
    requires Unique(rows) && IsAt(rows, i, k, v)
    ensures RowFor(rows, k, v) == Some(rows[i])
  {
    var j := Find(rows, k, v).value;
    assert i <= j && j <= i;
  }

  // ----- recording -----

  /** No row of the event is active any more. */
  function Deactivated(rows: Ledger, k: Key): (r: Ledger)
    ensures |r| == |rows|
    ensures forall i :: 0 <= i < |r| ==>
      r[i] == rows[i].(active := rows[i].active && rows[i].entry.key != k)
  {
    if rows == [] then []
    else
      var last := rows[|rows| - 1];
      Deactivated(rows[..|rows| - 1], k) + [last.(active := last.active && last.entry.key != k)]
  }

  /** The ledger after recording one cost; an unknown status is refused before anything changes. */
  function Record(rows: Ledger, e: Entry): Ledger {
    if !Recognized(e) then rows else
    var cleared := Deactivated(rows, e.key);
    match Find(cleared, e.key, e.version)
    case None => cleared + [CostRow(e, true)]
    case Some(i) => cleared[i := CostRow(e, true)]
  }

  function RecordAll(rows: Ledger, entries: seq<Entry>): Ledger {
    if entries == [] then rows
    else Record(RecordAll(rows, entries[..|entries| - 1]), entries[|entries| - 1])
  }

  lemma RecordKeepsUnique(rows: Ledger, e: Entry)
    requires Unique(rows)
    ensures Unique(Record(rows, e))
  {
    var cleared := Deactivated(rows, e.key);
    assert Unique(cleared) by {
      forall i, j | 0 <= i < j < |cleared| ensures !IsAt(cleared, j, cleared[i].entry.key, cleared[i].entry.version) {
        assert !IsAt(rows, j, rows[i].entry.key, rows[i].entry.version);
      }
    }
    var after := Record(rows, e);
    if Recognized(e) {
      forall i, j | 0 <= i < j < |after| ensures !IsAt(after, j, after[i].entry.key, after[i].entry.version) {
        if i < |cleared| && j < |cleared| {
          assert !IsAt(cleared, j, cleared[i].entry.key, cleared[i].entry.version);
        } else {
          assert !IsAt(cleared, i, e.key, e.version);
        }
      }
    }
  }

  /** The row of an event and a version once `e` has been recorded. */
  function RowAfter(rows: Ledger, e: Entry, k: Key, v: string): Option<CostRow> {
    if k == e.key && v == e.version then Some(CostRow(e, true))
    else
      match RowFor(rows, k, v)
      case None => None
      case Some(row) => Some(row.(active := row.active && k != e.key))
  }

  /** Recording replaces one row, deactivates the event's other rows and touches nothing else. */
  lemma RecordMeaning(rows: Ledger, e: Entry, k: Key, v: string)
    requires Unique(rows) && Recognized(e)
    ensures Unique(Record(rows, e))
    ensures RowFor(Record(rows, e), k, v) == RowAfter(rows, e, k, v)
  {
    RecordKeepsUnique(rows, e);
    var cleared, after := Deactivated(rows, e.key), Record(rows, e);
    if k == e.key && v == e.version {
      var i := if Find(cleared, k, v).Some? then Find(cleared, k, v).value else |rows|;
      FoundRow(after, i, k, v);
    } else if Find(rows, k, v).Some? {
      var i := Find(rows, k, v).value;
      assert after[i] == cleared[i] && IsAt(after, i, k, v);
      FoundRow(after, i, k, v);
    } else if Find(after, k, v).Some? {
      assert IsAt(rows, Find(after, k, v).value, k, v);
    }
  }

  // ----- the ledger as history -----

  /** The last recognized recording for an event. */
  function LastFor(entries: seq<Entry>, k: Key): Option<Entry> {
    if entries == [] then None
    else
      var e := entries[|entries| - 1];
      if Recognized(e) && e.key == k then Some(e) else LastFor(entries[..|entries| - 1], k)
  }

  /** The last recognized recording for an event under one pricing version. */
  function LastUnder(entries: seq<Entry>, k: Key, v: string): Option<Entry> {
    if entries == [] then None
    else
      var e := entries[|entries| - 1];
      if Recognized(e) && e.key == k && e.version == v then Some(e)
      else LastUnder(entries[..|entries| - 1], k, v)
  }

  lemma {:induction false} LastsAgree(entries: seq<Entry>, k: Key, v: string)
    ensures LastUnder(entries, k, v).Some? ==>
      && LastUnder(entries, k, v).value.key == k && LastUnder(entries, k, v).value.version == v
      && LastFor(entries, k).Some?
    ensures LastFor(entries, k).Some? ==>
      && LastFor(entries, k).value.key == k
      && LastUnder(entries, k, LastFor(entries, k).value.version) == LastFor(entries, k)
    decreases |entries|
  {
    if entries != [] {
      LastsAgree(entries[..|entries| - 1], k, v);
    }
  }

  /**
   The ledger after any sequence of recordings: the row of an event under a version holds the last
   cost recorded for exactly that pair, however often the event was repriced under other versions,
   and it is active exactly when that version is the one recorded last for the event.
   */
  lemma {:induction false} LedgerIsHistory(entries: seq<Entry>, k: Key, v: string)
    ensures Unique(RecordAll([], entries))
    ensures RowFor(RecordAll([], entries), k, v) ==
      match LastUnder(entries, k, v)
      case None => None
      case Some(e) => Some(CostRow(e, LastFor(entries, k).Some? && LastFor(entries, k).value.version == v))
    decreases |entries|
  {
    if entries != [] {
      var init, e := entries[..|entries| - 1], entries[|entries| - 1];
      LedgerIsHistory(init, k, v);
      if Recognized(e) {
        RecordMeaning(RecordAll([], init), e, k, v);
      }
    }
  }

  predicate IsActiveAt(rows: Ledger, i: int, k: Key) {
    0 <= i < |rows| && rows[i].active && rows[i].entry.key == k
  }

  predicate HasActive(rows: Ledger, k: Key) {
    exists i :: 0 <= i < |rows| && IsActiveAt(rows, i, k)
  }

  /** The active row of an event, if any. */
  function ActiveCost(rows: Ledger, k: Key): (r: Option<CostRow>)
    ensures r.Some? ==> r.value in rows && r.value.active && r.value.entry.key == k
    ensures r.None? <==> !HasActive(rows, k)
  {
    if rows == [] then None
    else if IsActiveAt(rows, 0, k) then Some(rows[0])
    else
      assert forall i :: 0 < i < |rows| && IsActiveAt(rows, i, k) ==> IsActiveAt(rows[1..], i - 1, k);
      assert forall i :: 0 <= i < |rows| - 1 && IsActiveAt(rows[1..], i, k) ==> IsActiveAt(rows, i + 1, k);
      ActiveCost(rows[1..], k)
  }

  /** Never two active rows for one event; the active row is the cost recorded last. */
  lemma OneActiveRow(entries: seq<Entry>, k: Key)
    ensures var rows := RecordAll([], entries);
      && (forall i, j :: IsActiveAt(rows, i, k) && IsActiveAt(rows, j, k) ==> i == j)
      && (HasActive(rows, k) <==> exists n :: 0 <= n < |entries| && Recognized(entries[n]) && entries[n].key == k)
      && ActiveCost(rows, k) == match LastFor(entries, k) case None => None case Some(e) => Some(CostRow(e, true))
  {
    var rows, last := RecordAll([], entries), LastFor(entries, k);
    forall i | IsActiveAt(rows, i, k)
      ensures last.Some? && rows[i] == CostRow(last.value, true)
    {
      var v := rows[i].entry.version;
      LedgerIsHistory(entries, k, v);
      FoundRow(rows, i, k, v);
      LastsAgree(entries, k, v);
    }
    forall i, j | IsActiveAt(rows, i, k) && IsActiveAt(rows, j, k)
      ensures i == j
    {
      LedgerIsHistory(entries, k, rows[i].entry.version);
      FoundRow(rows, i, k, last.value.version);
      assert IsAt(rows, i, k, last.value.version) && IsAt(rows, j, k, last.value.version);
    }
    if last.Some? {
      LastsAgree(entries, k, last.value.version);
      LedgerIsHistory(entries, k, last.value.version);
      var i := Find(rows, k, last.value.version).value;
      assert IsActiveAt(rows, i, k);
      var found := ActiveCost(rows, k).value;
      var j :| 0 <= j < |rows| && rows[j] == found;
      assert IsActiveAt(rows, j, k);
    }
    LastForMeaning(entries, k);
  }

  lemma {:induction false} LastForMeaning(entries: seq<Entry>, k: Key)
    ensures LastFor(entries, k).Some? <==>
      exists n :: 0 <= n < |entries| && Recognized(entries[n]) && entries[n].key == k
    decreases |entries|
  {
    if entries != [] {
      var init := entries[..|entries| - 1];
      LastForMeaning(init, k);
      forall n | 0 <= n < |init| ensures init[n] == entries[n] {
      }
    }
  }

  // ----- the sweep -----

  datatype UsageRow = UsageRow(key: Key, kind: string, finality: string, billingMode: string)

  /** What the engine makes of a ledger row with the rates of the moment. */
  type Pricer = UsageRow -> Outcome

  const SUBSCRIPTION := "subscription"

  function StatusName(s: Status): (r: string)
    ensures r in COST_STATUSES
  {
    match s
    case Priced => "priced"
    case Partial => "partial"
    case Unpriced => "unpriced"
    case Error => "error"
  }

  /** Subscription usage is no real spend: its amount is recorded as an equivalent value. */
  function EntryFor(row: UsageRow, result: CostResult, version: string): Entry {
    var subscription := row.billingMode == SUBSCRIPTION;
    Entry(row.key, version, Cost(
      StatusName(result.status),
      if subscription then None else result.amount,
      if subscription then result.amount else None,
      result.missing,
      row.billingMode))
  }

  predicate DistinctKeys(events: seq<UsageRow>) {
    forall i, j :: 0 <= i < j < |events| ==> events[i].key != events[j].key
  }

  predicate IsUncosted(row: UsageRow, rows: Ledger) {
    row.kind == "attempt" && row.finality == "final" && !HasActive(rows, row.key)
  }

  /** The final attempts without an active cost, in table order. */
  function Uncosted(events: seq<UsageRow>, rows: Ledger): seq<UsageRow> {
    if events == [] then []
    else (if IsUncosted(events[0], rows) then [events[0]] else []) + Uncosted(events[1..], rows)
  }

  /** Uncosted are the final attempts for which no row is active. */
  lemma IsUncostedMeaning(x: UsageRow, rows: Ledger)
    ensures IsUncosted(x, rows) <==>
      && x.kind == "attempt" && x.finality == "final"
      && forall i :: 0 <= i < |rows| && rows[i].active ==> rows[i].entry.key != x.key
  {
    assert forall i :: 0 <= i < |rows| && rows[i].active && rows[i].entry.key == x.key ==> IsActiveAt(rows, i, x.key);
  }

  lemma {:induction false} UncostedMeaning(events: seq<UsageRow>, rows: Ledger, x: UsageRow)
    ensures x in Uncosted(events, rows) <==> x in events && IsUncosted(x, rows)
    decreases |events|
  {
    if events != [] {
      UncostedMeaning(events[1..], rows, x);
    }
  }

  /** Recording writes one position and deactivates the event's rows at the others. */
  lemma RecordPositions(rows: Ledger, e: Entry) returns (at: nat)
    requires Recognized(e)
    ensures at <= |rows| && at < |Record(rows, e)| && Record(rows, e)[at] == CostRow(e, true)
    ensures |rows| <= |Record(rows, e)| <= |rows| + 1
    ensures |Record(rows, e)| == |rows| + 1 ==> at == |rows|
    ensures forall i :: 0 <= i < |rows| && i != at ==>
      Record(rows, e)[i] == rows[i].(active := rows[i].active && rows[i].entry.key != e.key)
    ensures at < |rows| ==> rows[at].entry.key == e.key
  {
    var found := Find(Deactivated(rows, e.key), e.key, e.version);
    at := if found.Some? then found.value else |rows|;
  }

  lemma RecordActivates(rows: Ledger, e: Entry)
    requires Recognized(e)
    ensures forall k :: HasActive(Record(rows, e), k) <==> HasActive(rows, k) || k == e.key
  {
    var after := Record(rows, e);
    var at := RecordPositions(rows, e);
    assert IsActiveAt(after, at, e.key);
    forall k | k != e.key ensures HasActive(after, k) <==> HasActive(rows, k) {
      if HasActive(rows, k) {
        var i :| 0 <= i < |rows| && IsActiveAt(rows, i, k);
        assert IsActiveAt(after, i, k);
      }
      if HasActive(after, k) {
        var i :| 0 <= i < |after| && IsActiveAt(after, i, k);
        assert i < |rows| && IsActiveAt(rows, i, k);
      }
    }
  }

  predicate AnyRaises(price: Pricer, events: seq<UsageRow>) {
    exists i :: 0 <= i < |events| && price(events[i]).Raised?
  }

  /** The entries the worker records for a list of events. */
  function EntriesFor(price: Pricer, events: seq<UsageRow>, version: string): (r: seq<Entry>)
    requires !AnyRaises(price, events)
    ensures |r| == |events|
    ensures forall i :: 0 <= i < |r| ==> r[i] == EntryFor(events[i], price(events[i]).result, version)
  {
    seq(|events|, i requires 0 <= i < |events| => EntryFor(events[i], price(events[i]).result, version))
  }

  /** One configuration of the worker over a fixed usage table, with rates that do not change. */
  datatype Worker = Worker(events: seq<UsageRow>, price: Pricer, version: string, batch: nat)

  /** What the worker's query may return: as many uncosted attempts as the limit allows, in any order. */
  predicate IsSelection(w: Worker, rows: Ledger, chosen: seq<UsageRow>) {
    && |chosen| == Min(w.batch, |Uncosted(w.events, rows)|)
    && DistinctKeys(chosen)
    && forall i :: 0 <= i < |chosen| ==> chosen[i] in Uncosted(w.events, rows)
  }

  /** The ledger one sweep leaves; a raising event rolls the whole sweep back. */
  function AfterSweep(w: Worker, rows: Ledger, chosen: seq<UsageRow>): Ledger {
    if AnyRaises(w.price, chosen) then rows else RecordAll(rows, EntriesFor(w.price, chosen, w.version))
  }

  /** The rows of a list that are not among the chosen ones. */
  function Except(all: seq<UsageRow>, chosen: seq<UsageRow>): seq<UsageRow> {
    if all == [] then [] else (if all[0] in chosen then [] else [all[0]]) + Except(all[1..], chosen)
  }

  lemma {:induction false} ExceptMeaning(all: seq<UsageRow>, chosen: seq<UsageRow>, x: UsageRow)
    ensures x in Except(all, chosen) <==> x in all && x !in chosen
    decreases |all|
  {
    if all != [] {
      ExceptMeaning(all[1..], chosen, x);
    }
  }

  predicate HasKey(es: seq<UsageRow>, k: Key) {
    exists i :: 0 <= i < |es| && es[i].key == k
  }

  lemma HasKeySnoc(init: seq<UsageRow>, last: UsageRow, k: Key)
    ensures HasKey(init + [last], k) <==> HasKey(init, k) || last.key == k
  {
    var es := init + [last];
    if HasKey(init, k) {
      var i :| 0 <= i < |init| && init[i].key == k;
      assert es[i].key == k;
    }
    if HasKey(es, k) && last.key != k {
      var i :| 0 <= i < |es| && es[i].key == k;
      assert init[i].key == k;
    }
    assert es[|init|] == last;
  }

  lemma EntriesSnoc(w: Worker, init: seq<UsageRow>, last: UsageRow)
    requires !AnyRaises(w.price, init + [last])
    ensures !AnyRaises(w.price, init) && w.price(last).Computed?
    ensures EntriesFor(w.price, init + [last], w.version) ==
      EntriesFor(w.price, init, w.version) + [EntryFor(last, w.price(last).result, w.version)]
  {
    var es := init + [last];
    assert es[|init|] == last && forall i :: 0 <= i < |init| ==> es[i] == init[i];
  }

  /** Recording the chosen rows gives exactly them an active cost. */
  lemma {:induction false} RecordAllActivates(w: Worker, rows: Ledger, chosen: seq<UsageRow>, k: Key)
    requires !AnyRaises(w.price, chosen)
    ensures HasActive(RecordAll(rows, EntriesFor(w.price, chosen, w.version)), k) <==>
      HasActive(rows, k) || HasKey(chosen, k)
    decreases |chosen|
  {
    if chosen != [] {
      var init, last := chosen[..|chosen| - 1], chosen[|chosen| - 1];
      assert chosen == init + [last];
      EntriesSnoc(w, init, last);
      HasKeySnoc(init, last, k);
      RecordAllActivates(w, rows, init, k);
      var entries, e := EntriesFor(w.price, init, w.version), EntryFor(last, w.price(last).result, w.version);
      RecordAllSnoc(rows, entries, e);
      RecordActivates(RecordAll(rows, entries), e);
    }
  }

  lemma RecordAllSnoc(rows: Ledger, entries: seq<Entry>, e: Entry)
    ensures RecordAll(rows, entries + [e]) == Record(RecordAll(rows, entries), e)
  {
    assert (entries + [e])[..|entries|] == entries;
  }

  lemma {:induction false} UncostedAfter(events: seq<UsageRow>, a: Ledger, b: Ledger, chosen: seq<UsageRow>)
    requires forall k :: HasActive(b, k) <==> HasActive(a, k) || HasKey(chosen, k)
    requires forall i :: 0 <= i < |events| ==> (HasKey(chosen, events[i].key) <==> events[i] in chosen)
    ensures Uncosted(events, b) == Except(Uncosted(events, a), chosen)
    decreases |events|
  {
    if events != [] {
      var rest := events[1..];
      assert forall i :: 0 <= i < |rest| ==> rest[i] == events[i + 1];
      UncostedAfter(rest, a, b, chosen);
      assert HasKey(chosen, events[0].key) <==> events[0] in chosen;
      if IsUncosted(events[0], a) {
        assert Uncosted(events, a) == [events[0]] + Uncosted(rest, a);
        assert Uncosted(events, a)[1..] == Uncosted(rest, a);
      } else {
        assert Uncosted(events, a) == Uncosted(rest, a);
      }
    }
  }

  /** Distinct keys of a table, so a chosen row is recognized by its key. */
  lemma ChosenByKey(w: Worker, rows: Ledger, chosen: seq<UsageRow>)
    requires DistinctKeys(w.events) && forall i :: 0 <= i < |chosen| ==> chosen[i] in Uncosted(w.events, rows)
    ensures forall i :: 0 <= i < |w.events| ==> (HasKey(chosen, w.events[i].key) <==> w.events[i] in chosen)
  {
    forall i | 0 <= i < |w.events| ensures HasKey(chosen, w.events[i].key) <==> w.events[i] in chosen {
      var e := w.events[i];
      if HasKey(chosen, e.key) {
        var n :| 0 <= n < |chosen| && chosen[n].key == e.key;
        UncostedMeaning(w.events, rows, chosen[n]);
        var j :| 0 <= j < |w.events| && w.events[j] == chosen[n];
        assert i <= j && j <= i;
      }
    }
  }

  /** A sweep without a raising row costs exactly the chosen rows; with one it costs none. */
  lemma SweepProgress(w: Worker, rows: Ledger, chosen: seq<UsageRow>)
    requires DistinctKeys(w.events) && IsSelection(w, rows, chosen)
    ensures Uncosted(w.events, AfterSweep(w, rows, chosen)) ==
      if AnyRaises(w.price, chosen) then Uncosted(w.events, rows) else Except(Uncosted(w.events, rows), chosen)
    ensures |Uncosted(w.events, AfterSweep(w, rows, chosen))| ==
      |Uncosted(w.events, rows)| - if AnyRaises(w.price, chosen) then 0 else Min(w.batch, |Uncosted(w.events, rows)|)
  {
    if !AnyRaises(w.price, chosen) {
      var after := AfterSweep(w, rows, chosen);
      forall k ensures HasActive(after, k) <==> HasActive(rows, k) || HasKey(chosen, k) {
        RecordAllActivates(w, rows, chosen, k);
      }
      ChosenByKey(w, rows, chosen);
      UncostedAfter(w.events, rows, after, chosen);
      UncostedDistinct(w.events, rows);
      ExceptLength(Uncosted(w.events, rows), chosen);
    }
  }

  lemma {:induction false} UncostedDistinct(events: seq<UsageRow>, rows: Ledger)
    requires DistinctKeys(events)
    ensures DistinctKeys(Uncosted(events, rows))
    decreases |events|
  {
    if events != [] {
      var rest, u := events[1..], Uncosted(events[1..], rows);
      assert forall i :: 0 <= i < |rest| ==> rest[i] == events[i + 1];
      UncostedDistinct(rest, rows);
      forall i | 0 <= i < |u| ensures u[i].key != events[0].key {
        UncostedMeaning(rest, rows, u[i]);
        var j :| 0 <= j < |rest| && rest[j] == u[i];
        assert events[j + 1] == u[i];
      }
    }
  }

  function Members(s: seq<UsageRow>): set<UsageRow> {
    set x | x in s
  }

  lemma {:induction false} DistinctSize(s: seq<UsageRow>)
    requires DistinctKeys(s)
    ensures |Members(s)| == |s|
    decreases |s|
  {
    if s != [] {
      var rest := s[1..];
      assert forall i :: 0 <= i < |rest| ==> rest[i] == s[i + 1];
      DistinctSize(rest);
      assert Members(s) == {s[0]} + Members(rest);
    }
  }

  lemma {:induction false} ExceptDistinct(all: seq<UsageRow>, chosen: seq<UsageRow>)
    requires DistinctKeys(all)
    ensures DistinctKeys(Except(all, chosen))
    decreases |all|
  {
    if all != [] {
      var rest, kept := all[1..], Except(all[1..], chosen);
      assert forall i :: 0 <= i < |rest| ==> rest[i] == all[i + 1];
      ExceptDistinct(rest, chosen);
      forall i | 0 <= i < |kept| ensures kept[i].key != all[0].key {
        ExceptMeaning(rest, chosen, kept[i]);
        var j :| 0 <= j < |rest| && rest[j] == kept[i];
        assert all[j + 1] == kept[i];
      }
    }
  }

  lemma ExceptLength(all: seq<UsageRow>, chosen: seq<UsageRow>)
    requires DistinctKeys(all) && DistinctKeys(chosen) && forall i :: 0 <= i < |chosen| ==> chosen[i] in all
    ensures |Except(all, chosen)| == |all| - |chosen|
  {
    var kept := Except(all, chosen);
    ExceptDistinct(all, chosen);
    DistinctSize(all);
    DistinctSize(chosen);
    DistinctSize(kept);
    forall x ensures x in Members(kept) <==> x in Members(all) - Members(chosen) {
      ExceptMeaning(all, chosen, x);
    }
    assert Members(kept) == Members(all) - Members(chosen);
    assert Members(chosen) <= Members(all);
  }

  // ----- repeated sweeps -----

  /** The ledger after one sweep for each of these selections. */
  function Sweeps(w: Worker, rows: Ledger, picks: seq<seq<UsageRow>>): Ledger {
    if picks == [] then rows
    else AfterSweep(w, Sweeps(w, rows, picks[..|picks| - 1]), picks[|picks| - 1])
  }

  /** Each sweep selects from what the sweeps before it have left. */
  predicate IsSchedule(w: Worker, rows: Ledger, picks: seq<seq<UsageRow>>) {
    picks == []
    || (IsSchedule(w, rows, picks[..|picks| - 1])
        && IsSelection(w, Sweeps(w, rows, picks[..|picks| - 1]), picks[|picks| - 1]))
  }

  /** A list of which every row is in the other raises no more often. */
  lemma NoneRaises(price: Pricer, chosen: seq<UsageRow>, all: seq<UsageRow>)
    requires !AnyRaises(price, all) && forall i :: 0 <= i < |chosen| ==> chosen[i] in all
    ensures !AnyRaises(price, chosen)
  {
    forall i | 0 <= i < |chosen| ensures !price(chosen[i]).Raised? {
      var j :| 0 <= j < |all| && all[j] == chosen[i];
      assert !price(all[j]).Raised?;
    }
  }

  /** Sweeps only ever shrink what is uncosted. */
  lemma {:induction false} StillUncosted(w: Worker, rows: Ledger, picks: seq<seq<UsageRow>>, x: UsageRow)
    requires DistinctKeys(w.events) && IsSchedule(w, rows, picks) && x in Uncosted(w.events, Sweeps(w, rows, picks))
    ensures x in Uncosted(w.events, rows)
    decreases |picks|
  {
    if picks != [] {
      var init, last := picks[..|picks| - 1], picks[|picks| - 1];
      var before := Sweeps(w, rows, init);
      SweepProgress(w, before, last);
      ExceptMeaning(Uncosted(w.events, before), last, x);
      StillUncosted(w, rows, init, x);
    }
  }

  /** What so many limits of `batch` come to. */
  function Together(times: nat, batch: nat): nat {
    if times == 0 then 0 else Together(times - 1, batch) + batch
  }

  lemma {:induction false} TogetherMeaning(times: nat, batch: nat)
    ensures Together(times, batch) == times * batch
    ensures batch > 0 ==> Together(times, batch) >= times
    decreases times
  {
    if times > 0 {
      TogetherMeaning(times - 1, batch);
    }
  }

  /** One more sweep, when nothing it can select raises. */
  lemma OneMoreSweep(w: Worker, before: Ledger, last: seq<UsageRow>, all: seq<UsageRow>)
    requires DistinctKeys(w.events) && IsSelection(w, before, last) && !AnyRaises(w.price, all)
    requires forall x :: x in Uncosted(w.events, before) ==> x in all
    ensures |Uncosted(w.events, AfterSweep(w, before, last))| ==
      |Uncosted(w.events, before)| - Min(w.batch, |Uncosted(w.events, before)|)
  {
    NoneRaises(w.price, last, all);
    SweepProgress(w, before, last);
  }

  /** The number of attempts left uncosted after these sweeps. */
  function LeftOver(w: Worker, rows: Ledger, picks: seq<seq<UsageRow>>): nat {
    |Uncosted(w.events, Sweeps(w, rows, picks))|
  }

  /** Whatever the queries return: without raising rows, n sweeps cost n times `batch` attempts, or all. */
  lemma {:induction false} RemainingWithoutRaise(w: Worker, rows: Ledger, picks: seq<seq<UsageRow>>)
    requires DistinctKeys(w.events) && IsSchedule(w, rows, picks) && !AnyRaises(w.price, Uncosted(w.events, rows))
    ensures LeftOver(w, rows, picks) == LeftOver(w, rows, []) - Min(Together(|picks|, w.batch), LeftOver(w, rows, []))
    decreases |picks|
  {
    if picks != [] {
      var init, last := picks[..|picks| - 1], picks[|picks| - 1];
      RemainingWithoutRaise(w, rows, init);
      forall x | x in Uncosted(w.events, Sweeps(w, rows, init)) ensures x in Uncosted(w.events, rows) {
        StillUncosted(w, rows, init, x);
      }
      OneMoreSweep(w, Sweeps(w, rows, init), last, Uncosted(w.events, rows));
    }
  }

  /** An event whose pricing raises is never costed, however often the worker runs and whatever it selects. */
  lemma {:induction false} RaisingEventStays(w: Worker, rows: Ledger, picks: seq<seq<UsageRow>>, x: UsageRow)
    requires DistinctKeys(w.events) && IsSchedule(w, rows, picks)
    requires x in Uncosted(w.events, rows) && w.price(x).Raised?
    ensures x in Uncosted(w.events, Sweeps(w, rows, picks))
    decreases |picks|
  {
    if picks != [] {
      var init, last := picks[..|picks| - 1], picks[|picks| - 1];
      var before := Sweeps(w, rows, init);
      RaisingEventStays(w, rows, init, x);
      SweepProgress(w, before, last);
      ExceptMeaning(Uncosted(w.events, before), last, x);
      if x in last {
        var i :| 0 <= i < |last| && last[i] == x;
        assert AnyRaises(w.price, last);
      }
    }
  }

  /** There is always something the query can return. */
  lemma SomeSelection(w: Worker, rows: Ledger) returns (chosen: seq<UsageRow>)
    requires DistinctKeys(w.events)
    ensures IsSelection(w, rows, chosen)
  {
    UncostedDistinct(w.events, rows);
    chosen := Uncosted(w.events, rows)[..Min(w.batch, |Uncosted(w.events, rows)|)];
  }

  lemma {:induction false} SomeSchedule(w: Worker, rows: Ledger, n: nat) returns (picks: seq<seq<UsageRow>>)
    requires DistinctKeys(w.events)
    ensures |picks| == n && IsSchedule(w, rows, picks)
    decreases n
  {
    picks := [];
    if n > 0 {
      var init := SomeSchedule(w, rows, n - 1);
      var last := SomeSelection(w, Sweeps(w, rows, init));
      picks := init + [last];
      assert picks[..n - 1] == init;
    }
  }

  /** Full coverage: no final attempt without an active cost is left. */
  predicate Covered(w: Worker, rows: Ledger) {
    Uncosted(w.events, rows) == []
  }

  /** Without raising rows every long enough sequence of sweeps covers everything. */
  lemma LongSchedulesCover(w: Worker, rows: Ledger, picks: seq<seq<UsageRow>>)
    requires DistinctKeys(w.events) && IsSchedule(w, rows, picks) && !AnyRaises(w.price, Uncosted(w.events, rows))
    requires Together(|picks|, w.batch) >= |Uncosted(w.events, rows)|
    ensures Covered(w, Sweeps(w, rows, picks))
  {
    RemainingWithoutRaise(w, rows, picks);
  }

  /** With a raising row none does. */
  lemma NoScheduleCovers(w: Worker, rows: Ledger, picks: seq<seq<UsageRow>>)
    requires DistinctKeys(w.events) && IsSchedule(w, rows, picks) && AnyRaises(w.price, Uncosted(w.events, rows))
    ensures !Covered(w, Sweeps(w, rows, picks))
  {
    var all := Uncosted(w.events, rows);
    var i :| 0 <= i < |all| && w.price(all[i]).Raised?;
    RaisingEventStays(w, rows, picks, all[i]);
  }

  ghost predicate CanBeCovered(w: Worker, rows: Ledger) {
    exists picks :: IsSchedule(w, rows, picks) && Covered(w, Sweeps(w, rows, picks))
  }

  /**
   Eventual coverage: repeated sweeps can reach a ledger that costs every final attempt exactly when
   pricing raises for none of the attempts that were uncosted to begin with; every long enough sequence
   of sweeps then does. One attempt whose reasoning rate cannot be looked up keeps the batches it is
   selected in from ever committing.
   */
  lemma EventualCoverage(w: Worker, rows: Ledger)
    requires DistinctKeys(w.events) && w.batch > 0
    ensures CanBeCovered(w, rows) <==> !AnyRaises(w.price, Uncosted(w.events, rows))
  {
    if AnyRaises(w.price, Uncosted(w.events, rows)) {
      forall picks | IsSchedule(w, rows, picks) ensures !Covered(w, Sweeps(w, rows, picks)) {
        NoScheduleCovers(w, rows, picks);
      }
    } else {
      var n := |Uncosted(w.events, rows)|;
      var picks := SomeSchedule(w, rows, n);
      TogetherMeaning(n, w.batch);
      LongSchedulesCover(w, rows, picks);
    }
  }

  /** Real spend and subscription-equivalent value never share a row, nor stand in the wrong mode's. */
  predicate KeptApart(c: Cost) {
    && (c.amount.Some? ==> c.billingMode != SUBSCRIPTION)
    && (c.subscriptionEquivalent.Some? ==> c.billingMode == SUBSCRIPTION)
  }

  predicate Unmerged(rows: Ledger) {
    forall i :: 0 <= i < |rows| ==> KeptApart(rows[i].entry.cost)
  }

  lemma RecordKeepsUnmerged(rows: Ledger, e: Entry)
    requires Unmerged(rows) && KeptApart(e.cost)
    ensures Unmerged(Record(rows, e))
  {
    if Recognized(e) {
      var at := RecordPositions(rows, e);
      var after := Record(rows, e);
      forall i | 0 <= i < |after| ensures KeptApart(after[i].entry.cost) {
        assert i != at ==> i < |rows| && after[i].entry == rows[i].entry;
      }
    }
  }

  lemma {:induction false} RecordAllKeepsUnmerged(rows: Ledger, entries: seq<Entry>)
    requires Unmerged(rows) && forall i :: 0 <= i < |entries| ==> KeptApart(entries[i].cost)
    ensures Unmerged(RecordAll(rows, entries))
    decreases |entries|
  {
    if entries != [] {
      RecordAllKeepsUnmerged(rows, entries[..|entries| - 1]);
      RecordKeepsUnmerged(RecordAll(rows, entries[..|entries| - 1]), entries[|entries| - 1]);
    }
  }

  /** Whatever the mode, the computed amount is recorded, on exactly one side. */
  lemma EntryKeepsApart(row: UsageRow, result: CostResult, version: string)
    ensures var c := EntryFor(row, result, version).cost;
      KeptApart(c) && (if row.billingMode == SUBSCRIPTION then c.subscriptionEquivalent else c.amount) == result.amount
  {
  }

  /**
   What a sweep writes for an event: its key and the version of the rates, the status by name, the missing
   units, the billing mode, and the amount on the side that the mode calls for.
   */
  lemma EntryForMeaning(row: UsageRow, result: CostResult, version: string)
    ensures var e := EntryFor(row, result, version);
      && e.key == row.key && e.version == version
      && e.cost.missing == result.missing && e.cost.billingMode == row.billingMode
      && (e.cost.status == "priced" <==> result.status.Priced?)
      && (e.cost.status == "partial" <==> result.status.Partial?)
      && (e.cost.status == "unpriced" <==> result.status.Unpriced?)
      && (e.cost.status == "error" <==> result.status.Error?)
      && (row.billingMode == "subscription" ==> e.cost.amount == None && e.cost.subscriptionEquivalent == result.amount)
      && (row.billingMode != "subscription" ==> e.cost.amount == result.amount && e.cost.subscriptionEquivalent == None)
  {
  }

  /** The worker keeps the two kinds of amount apart, over any number of sweeps. */
  lemma {:induction false} SweepsKeepUnmerged(w: Worker, rows: Ledger, picks: seq<seq<UsageRow>>)
    requires Unmerged(rows)
    ensures Unmerged(Sweeps(w, rows, picks))
    decreases |picks|
  {
    if picks != [] {
      var init, last := picks[..|picks| - 1], picks[|picks| - 1];
      SweepsKeepUnmerged(w, rows, init);
      if !AnyRaises(w.price, last) {
        forall i | 0 <= i < |last| ensures KeptApart(EntriesFor(w.price, last, w.version)[i].cost) {
          EntryKeepsApart(last[i], w.price(last[i]).result, w.version);
        }
        RecordAllKeepsUnmerged(Sweeps(w, rows, init), EntriesFor(w.price, last, w.version));
      }
    }
  }

  /** The cost table and the usage table it refers to. */
  class CostDatabase {
    const events: seq<UsageRow>
    var rows: Ledger

    ghost predicate Valid()
      reads this
    {
      Unique(rows) && DistinctKeys(events)
    }

    constructor (events: seq<UsageRow>)
      requires DistinctKeys(events)
      ensures Valid() && rows == [] && this.events == events
    {
      this.events := events;
      rows := [];
    }

    /** Records the authoritative cost of one event. */
    method RecordCost(e: Entry) returns (ok: bool)
      requires Valid()
      modifies this
      ensures Valid() && rows == Record(old(rows), e)
      ensures ok <==> Recognized(e)
      ensures !ok ==> rows == old(rows)
      ensures ok ==> forall k, v :: RowFor(rows, k, v) == RowAfter(old(rows), e, k, v)
    {
      if e.cost.status !in COST_STATUSES {
        return false;
      }
      RecordKeepsUnique(rows, e);
      forall k, v ensures RowFor(Record(rows, e), k, v) == RowAfter(rows, e, k, v) {
        RecordMeaning(rows, e, k, v);
      }
      rows := Deactivated(rows, e.key);
      var existing := Find(rows, e.key, e.version);
      if existing.None? {
        rows := rows + [CostRow(e, true)];
      } else {
        rows := rows[existing.value := CostRow(e, true)];
      }
      return true;
    }

    /** One worker pass over the rows that its query returned; an exception leaves the transaction uncommitted. */
    method Sweep(price: Pricer, version: string, batch: nat, chosen: seq<UsageRow>) returns (count: Option<nat>)
      requires Valid() && IsSelection(Worker(events, price, version, batch), rows, chosen)
      modifies this
      ensures Valid() && rows == AfterSweep(Worker(events, price, version, batch), old(rows), chosen)
      ensures count.None? <==> AnyRaises(price, chosen)
      ensures count.Some? ==>
        && count.value == Min(batch, |Uncosted(events, old(rows))|)
        && Uncosted(events, rows) == Except(Uncosted(events, old(rows)), chosen)
        && |Uncosted(events, rows)| == |Uncosted(events, old(rows))| - count.value
      ensures count.None? ==> rows == old(rows)
    {
      SweepProgress(Worker(events, price, version, batch), rows, chosen);
      if |chosen| == 0 {
        return Some(0);
      }
      var done := CostRows(chosen, price, version);
      count := if done then Some(|chosen|) else None;
    }

    method CostRows(chosen: seq<UsageRow>, price: Pricer, version: string) returns (done: bool)
      requires Valid()
      modifies this
      ensures Valid() && (done <==> !AnyRaises(price, chosen))
      ensures rows == if done then RecordAll(old(rows), EntriesFor(price, chosen, version)) else old(rows)
    {
      var committed := rows;
      var i := 0;
      while i < |chosen|
        invariant 0 <= i <= |chosen| && Valid()
        invariant CostedTo(committed, price, chosen[..i], version, rows)
      {
        var outcome := price(chosen[i]);
        if outcome.Raised? {
          rows := committed;
          return false;
        }
        RecordNext(committed, price, chosen, i, version, rows);
        var _ := RecordCost(EntryFor(chosen[i], outcome.result, version));
        i := i + 1;
      }
      assert chosen[..i] == chosen;
      return true;
    }
  }

  predicate CostedTo(start: Ledger, price: Pricer, chosen: seq<UsageRow>, version: string, rows: Ledger) {
    !AnyRaises(price, chosen) && rows == RecordAll(start, EntriesFor(price, chosen, version))
  }

  lemma RecordNext(start: Ledger, price: Pricer, chosen: seq<UsageRow>, i: nat, version: string, rows: Ledger)
    requires i < |chosen| && price(chosen[i]).Computed? && CostedTo(start, price, chosen[..i], version, rows)
    ensures CostedTo(start, price, chosen[..i + 1], version,
        Record(rows, EntryFor(chosen[i], price(chosen[i]).result, version)))
  {
    var w := Worker([], price, version, 0);
    assert chosen[..i + 1] == chosen[..i] + [chosen[i]];
    assert !AnyRaises(price, chosen[..i + 1]);
    EntriesSnoc(w, chosen[..i], chosen[i]);
    RecordAllSnoc(start, EntriesFor(price, chosen[..i], version),
        EntryFor(chosen[i], price(chosen[i]).result, version));
  }
}
