/**
 The usage-event store and its keep-max rule: an incoming event replaces the stored
 one of the same key when it reports at least as many output tokens.

 The central fact is an algebraic one. Write `UpsertAll(s, es)` for the store after the
 events `es`; an event that occurs again later in the stream can be deleted from the
 stream (`RepeatedEventIsRedundant`). Every replay argument about the collector rests on it.
 */
module KeepMax {
  import opened Sequences
  import opened Wrappers

  datatype Key = Key(provider: string, eventId: string)

  /** `rest` stands for every other field of the event as it was sent. */
  datatype Event = Event(key: Key, output: nat, rest: string)

  type Store = map<Key, Event>

  function Lookup(s: Store, k: Key): Option<Event> {
    if k in s then Some(s[k]) else None
  }

  // ----- one event -----

  /** The conflict rule of the upsert statement. */
  function Upsert(s: Store, e: Event): Store {
    if e.key !in s || e.output >= s[e.key].output then s[e.key := e] else s
  }

  function UpsertAll(s: Store, es: seq<Event>): Store
    decreases |es|
  {
    if es == [] then s else UpsertAll(Upsert(s, es[0]), es[1..])
  }

  lemma {:induction false} UpsertAllConcat(s: Store, a: seq<Event>, b: seq<Event>)
    ensures UpsertAll(s, a + b) == UpsertAll(UpsertAll(s, a), b)
    decreases |a|
  {
    if a == [] {
      assert a + b == b;
    } else {
      assert (a + b)[0] == a[0] && (a + b)[1..] == a[1..] + b;
      UpsertAllConcat(Upsert(s, a[0]), a[1..], b);
    }
  }

  lemma UpsertAllSnoc(s: Store, a: seq<Event>, e: Event)
    ensures UpsertAll(s, a + [e]) == Upsert(UpsertAll(s, a), e)
  {
    UpsertAllConcat(s, a, [e]);
    assert [e][1..] == [];
  }

  // ----- the live write path -----

  /** A stored row: the event, and the columns the server derives at the moment it ingests it. */
  datatype Row = Row(event: Event, derived: string)

  type Table = map<Key, Row>

  /** The events of a table, without the derived columns. */
  function Wire(t: Table): Store {
    map k | k in t :: t[k].event
  }

  datatype Outcome = Accepted | Updated | Duplicate

  datatype Decision = Decision(outcome: Outcome, write: bool)

  /** `resolve` in keep-max mode. Fingerprints are equal exactly when the rows are. */
  function Resolve(incoming: Row, existing: Option<Row>): Decision {
    match existing
    case None => Decision(Accepted, true)
    case Some(stored) =>
      if incoming == stored then Decision(Duplicate, false)
      else if incoming.event.output >= stored.event.output then Decision(Updated, true)
      else Decision(Duplicate, false)
  }

  function StoredRow(t: Table, k: Key): Option<Row> {
    if k in t then Some(t[k]) else None
  }

  function ApplyRevision(t: Table, row: Row): Table {
    if Resolve(row, StoredRow(t, row.event.key)).write then t[row.event.key := row] else t
  }

  /**
   The live revision engine and the upsert statement agree on the events, whatever the server
   derives for the other columns; a row is called a duplicate exactly when the table stays as it is.
   */
  lemma RevisionEngineIsUpsert(t: Table, row: Row)
    ensures Wire(ApplyRevision(t, row)) == Upsert(Wire(t), row.event)
    ensures Resolve(row, StoredRow(t, row.event.key)).outcome == Duplicate <==> ApplyRevision(t, row) == t
  {
    var k := row.event.key;
    if k in t && row == t[k] {
      assert Wire(t)[k := row.event] == Wire(t);
    } else {
      assert t[k := row][k] == row;
      assert Wire(t[k := row]) == Wire(t)[k := row.event];
    }
  }

  // ----- what the fold keeps -----

  predicate HasKey(es: seq<Event>, k: Key) {
    exists i :: 0 <= i < |es| && es[i].key == k
  }

  /** Event `i` is the last of the events with its key that reach the maximum output. */
  predicate IsSettled(es: seq<Event>, i: int) {
    && 0 <= i < |es|
    && (forall j :: 0 <= j < i && es[j].key == es[i].key ==> es[j].output <= es[i].output)
    && (forall j :: i < j < |es| && es[j].key == es[i].key ==> es[j].output < es[i].output)
  }

  lemma HasKeySnoc(es: seq<Event>, k: Key)
    requires es != []
    ensures HasKey(es, k) <==> HasKey(es[..|es| - 1], k) || es[|es| - 1].key == k
  {
    var init := es[..|es| - 1];
    if HasKey(es, k) && es[|es| - 1].key != k {
      var i :| 0 <= i < |es| && es[i].key == k;
      assert init[i].key == k;
    }
    if HasKey(init, k) {
      var i :| 0 <= i < |init| && init[i].key == k;
      assert es[i].key == k;
    }
    if es[|es| - 1].key == k {
      assert HasKey(es, k);
    }
  }

  lemma SettledStays(init: seq<Event>, e: Event, i: int)
    requires IsSettled(init, i) && (init[i].key == e.key ==> e.output < init[i].output)
    ensures IsSettled(init + [e], i) && (init + [e])[i] == init[i]
  {
  }

  lemma SettledLast(init: seq<Event>, e: Event)
    requires forall j :: 0 <= j < |init| && init[j].key == e.key ==> init[j].output <= e.output
    ensures IsSettled(init + [e], |init|) && (init + [e])[|init|] == e
  {
  }

  /** The store is, key by key, the last maximal event of the stream. */
  lemma {:induction false} SettledMeaning(es: seq<Event>, k: Key)
    ensures k in UpsertAll(map[], es) <==> HasKey(es, k)
    ensures k in UpsertAll(map[], es) ==>
              exists i :: IsSettled(es, i) && es[i].key == k && UpsertAll(map[], es)[k] == es[i]
    decreases |es|
  {
    if es != [] {
      var init, e := es[..|es| - 1], es[|es| - 1];
      var s := UpsertAll(map[], init);
      assert es == init + [e];
      UpsertAllSnoc(map[], init, e);
      HasKeySnoc(es, k);
      SettledMeaning(init, k);
      if k in s {
        var i :| IsSettled(init, i) && init[i].key == k && s[k] == init[i];
        if e.key == k && e.output >= s[k].output {
          SettledLast(init, e);
        } else {
          SettledStays(init, e, i);
        }
      } else if e.key == k {
        SettledLast(init, e);
      }
    }
  }

  /** Folding onto a store is a per-key comparison with the fold from nothing. */
  function Join(a: Option<Event>, b: Option<Event>): Option<Event> {
    if b.None? then a
    else if a.None? then b
    else if b.value.output >= a.value.output then b
    else a
  }

  lemma {:induction false} FoldIsJoin(s: Store, es: seq<Event>, k: Key)
    ensures Lookup(UpsertAll(s, es), k) == Join(Lookup(s, k), Lookup(UpsertAll(map[], es), k))
    decreases |es|
  {
    if es != [] {
      var init, e := es[..|es| - 1], es[|es| - 1];
      assert es == init + [e];
      UpsertAllSnoc(s, init, e);
      UpsertAllSnoc(map[], init, e);
      FoldIsJoin(s, init, k);
    }
  }

  // ----- replays -----

  lemma UpsertTwo(s: Store, a: Event, b: Event)
    ensures a.key != b.key ==> Upsert(Upsert(s, a), b) == Upsert(Upsert(s, b), a)
    ensures a.key == b.key && b.output >= a.output ==> Upsert(Upsert(s, a), b) == Upsert(s, b)
    ensures a.key == b.key && b.output < a.output ==>
              Upsert(Upsert(s, a), b) == Upsert(s, a) && Upsert(Upsert(s, b), a) == Upsert(s, a)
  {
    if a.key != b.key {
      assert Upsert(Upsert(s, a), b) == Upsert(Upsert(s, b), a);
    } else {
      assert s[a.key := a][b.key := b] == s[b.key := b];
      assert s[b.key := b][a.key := a] == s[a.key := a];
    }
  }

  /** An event that occurs again later in the stream can be deleted. */
  lemma {:induction false} RepeatedEventIsRedundant(s: Store, a: Event, w: seq<Event>)
    requires a in w
    ensures UpsertAll(Upsert(s, a), w) == UpsertAll(s, w)
    decreases |w|
  {
    var b := w[0];
    UpsertTwo(s, a, b);
    if a == b {
    } else {
      assert a in w[1..];
      if a.key != b.key {
        RepeatedEventIsRedundant(Upsert(s, b), a, w[1..]);
      } else if b.output < a.output {
        RepeatedEventIsRedundant(s, a, w[1..]);
        RepeatedEventIsRedundant(Upsert(s, b), a, w[1..]);
      }
    }
  }

  predicate AllIn(c: seq<Event>, w: seq<Event>) {
    forall e :: e in c ==> e in w
  }

  /** Any earlier delivery of events that are all delivered again later has no effect. */
  lemma {:induction false} ReplayAbsorbed(s: Store, c: seq<Event>, w: seq<Event>)
    requires AllIn(c, w)
    ensures UpsertAll(s, c + w) == UpsertAll(s, w)
    decreases |c|
  {
    if c == [] {
      assert c + w == w;
    } else {
      assert (c + w)[0] == c[0] && (c + w)[1..] == c[1..] + w;
      assert AllIn(c[1..], w);
      ReplayAbsorbed(Upsert(s, c[0]), c[1..], w);
      RepeatedEventIsRedundant(s, c[0], w);
    }
  }

  // ----- deduplication of one batch -----

  /** The distinct keys of a batch in the order they are first seen. */
  function FirstSeen(es: seq<Event>): seq<Key> {
    if es == [] then [] else
    var init, k := es[..|es| - 1], es[|es| - 1].key;
    var r := FirstSeen(init);
    if k in r then r else r + [k]
  }

  lemma {:induction false} FirstSeenKeys(es: seq<Event>, k: Key)
    ensures k in FirstSeen(es) <==> HasKey(es, k)
    decreases |es|
  {
    if es != [] {
      HasKeySnoc(es, k);
      FirstSeenKeys(es[..|es| - 1], k);
    }
  }

  /** The fold's keys, as the domain of the map. */
  lemma FoldKeys(es: seq<Event>)
    ensures forall k :: k in UpsertAll(map[], es) <==> HasKey(es, k)
  {
    forall k ensures k in UpsertAll(map[], es) <==> HasKey(es, k) {
      SettledMeaning(es, k);
    }
  }

  function Pick(best: Store, order: seq<Key>): (r: seq<Event>)
    requires forall k :: k in order ==> k in best
    ensures |r| == |order|
    ensures forall i :: 0 <= i < |r| ==> r[i] == best[order[i]]
  {
    if order == [] then [] else Pick(best, order[..|order| - 1]) + [best[order[|order| - 1]]]
  }

  lemma FirstSeenInFold(es: seq<Event>)
    ensures forall k :: k in FirstSeen(es) <==> HasKey(es, k)
    ensures forall k :: k in FirstSeen(es) ==> k in UpsertAll(map[], es)
  {
    FoldKeys(es);
    forall k ensures k in FirstSeen(es) <==> HasKey(es, k) {
      FirstSeenKeys(es, k);
    }
  }

  function Deduped(es: seq<Event>): seq<Event> {
    FirstSeenInFold(es);
    Pick(UpsertAll(map[], es), FirstSeen(es))
  }

  /** One event more: what the dictionary and the order list become. */
  lemma DedupeStep(es: seq<Event>, e: Event)
    ensures UpsertAll(map[], es + [e]) == Upsert(UpsertAll(map[], es), e)
    ensures FirstSeen(es + [e]) ==
            if e.key in UpsertAll(map[], es) then FirstSeen(es) else FirstSeen(es) + [e.key]
  {
    UpsertAllSnoc(map[], es, e);
    FirstSeenInFold(es);
    FoldKeys(es);
    assert (es + [e])[..|es|] == es;
  }

  /** Collapses a batch: a dictionary of the best event per key and a list of keys in arrival order. */
  method DedupeKeepMax(events: seq<Event>) returns (result: seq<Event>)
    ensures result == Deduped(events)
  {
    var best: Store := map[];
    var order: seq<Key> := [];
    var i := 0;
    while i < |events|
      invariant 0 <= i <= |events|
      invariant best == UpsertAll(map[], events[..i])
      invariant order == FirstSeen(events[..i])
    {
      var event := events[i];
      assert events[..i + 1] == events[..i] + [event];
      DedupeStep(events[..i], event);
      if event.key !in best {
        order := order + [event.key];
        best := best[event.key := event];
      } else if event.output >= best[event.key].output {
        best := best[event.key := event];
      }
      i := i + 1;
    }
    assert events[..i] == events;
    FirstSeenInFold(events);
    result := Pick(best, order);
  }

  /** Key `k` makes its first appearance at position `p` of the batch. */
  predicate FirstAt(es: seq<Event>, k: Key, p: int) {
    0 <= p < |es| && es[p].key == k && forall q :: 0 <= q < p ==> es[q].key != k
  }

  lemma {:induction false} FirstSeenOrder(es: seq<Event>)
    ensures forall i, j :: 0 <= i < j < |FirstSeen(es)| ==> FirstSeen(es)[i] != FirstSeen(es)[j]
    ensures forall i, j, p, q :: 0 <= i < j < |FirstSeen(es)| ==>
              FirstAt(es, FirstSeen(es)[i], p) && FirstAt(es, FirstSeen(es)[j], q) ==> p < q
    decreases |es|
  {
    if es != [] {
      var init := es[..|es| - 1];
      FirstSeenOrder(init);
      FirstSeenInFold(init);
      var f, r := FirstSeen(es), FirstSeen(init);
      forall i, j, p, q | 0 <= i < j < |f| && FirstAt(es, f[i], p) && FirstAt(es, f[j], q)
        ensures p < q
      {
        assert f[i] == r[i] && HasKey(init, f[i]);
        var a :| 0 <= a < |init| && init[a].key == f[i];
        assert es[a].key == f[i];
        assert p <= a;
        assert FirstAt(init, f[i], p);
        if q < |init| {
          assert HasKey(init, f[j]) by { assert init[q].key == f[j]; }
          assert FirstAt(init, f[j], q);
        }
      }
    }
  }

  /**
   What deduplication returns: one event per key of the batch, keys pairwise distinct and in
   first-seen order, and each event the last maximal one of its key.
   */
  lemma DedupeMeaning(es: seq<Event>)
    ensures var r := Deduped(es);
      && (forall k :: HasKey(r, k) <==> HasKey(es, k))
      && (forall i, j :: 0 <= i < j < |r| ==> r[i].key != r[j].key)
      && (forall i, j, p, q :: 0 <= i < j < |r| && FirstAt(es, r[i].key, p) && FirstAt(es, r[j].key, q) ==> p < q)
      && (forall i :: 0 <= i < |r| ==> exists n :: IsSettled(es, n) && es[n] == r[i])
  {
    var r, order, best := Deduped(es), FirstSeen(es), UpsertAll(map[], es);
    FirstSeenInFold(es);
    FirstSeenOrder(es);
    forall i | 0 <= i < |r|
      ensures r[i].key == order[i] && exists n :: IsSettled(es, n) && es[n] == r[i]
    {
      SettledMeaning(es, order[i]);
    }
    forall k ensures HasKey(r, k) <==> HasKey(es, k) {
      if HasKey(es, k) {
        var i :| 0 <= i < |order| && order[i] == k;
        assert r[i].key == k;
      }
    }
  }

  /** A store folded from a list with distinct keys holds exactly the listed events. */
  lemma {:induction false} FoldDistinct(r: seq<Event>)
    requires forall i, j :: 0 <= i < j < |r| ==> r[i].key != r[j].key
    ensures forall i :: 0 <= i < |r| ==> Lookup(UpsertAll(map[], r), r[i].key) == Some(r[i])
  {
    FoldKeys(r);
    forall i | 0 <= i < |r|
      ensures Lookup(UpsertAll(map[], r), r[i].key) == Some(r[i])
    {
      SettledMeaning(r, r[i].key);
    }
  }

  lemma DedupeKeepsBest(es: seq<Event>, k: Key)
    ensures Lookup(UpsertAll(map[], Deduped(es)), k) == Lookup(UpsertAll(map[], es), k)
  {
    var r, order := Deduped(es), FirstSeen(es);
    DedupeMeaning(es);
    FoldDistinct(r);
    FoldKeys(r);
    FirstSeenInFold(es);
    FoldKeys(es);
    if HasKey(es, k) {
      var i :| 0 <= i < |order| && order[i] == k;
      SettledMeaning(es, k);
      assert r[i] == UpsertAll(map[], es)[k];
    }
  }

  /** Deduplicating first does not change what a batch does to any store. */
  lemma DedupePreservesMerge(s: Store, es: seq<Event>)
    ensures UpsertAll(s, Deduped(es)) == UpsertAll(s, es)
  {
    forall k ensures Lookup(UpsertAll(s, Deduped(es)), k) == Lookup(UpsertAll(s, es), k) {
      FoldIsJoin(s, Deduped(es), k);
      FoldIsJoin(s, es, k);
      DedupeKeepsBest(es, k);
    }
    SameLookups(UpsertAll(s, Deduped(es)), UpsertAll(s, es));
  }

  lemma SameLookups(a: Store, b: Store)
    requires forall k :: Lookup(a, k) == Lookup(b, k)
    ensures a == b
  {
    forall k ensures k in a <==> k in b {
      assert Lookup(a, k) == Lookup(b, k);
    }
    forall k | k in a ensures a[k] == b[k] {
      assert Lookup(a, k) == Lookup(b, k);
    }
  }

  // ----- batches -----

  /** One ingest request: deduplicate the batch, then upsert what is left. */
  function IngestBatch(s: Store, batch: seq<Event>): Store {
    UpsertAll(s, Deduped(batch))
  }

  function IngestBatches(s: Store, batches: seq<seq<Event>>): Store
    decreases |batches|
  {
    if batches == [] then s else IngestBatches(IngestBatch(s, batches[0]), batches[1..])
  }

  /** However a stream is cut into batches, the store is that of the events one at a time. */
  lemma {:induction false} BatchBoundariesDoNotMatter(s: Store, batches: seq<seq<Event>>)
    ensures IngestBatches(s, batches) == UpsertAll(s, Flatten(batches))
    decreases |batches|
  {
    if batches != [] {
      DedupePreservesMerge(s, batches[0]);
      BatchBoundariesDoNotMatter(IngestBatch(s, batches[0]), batches[1..]);
      UpsertAllConcat(s, batches[0], Flatten(batches[1..]));
    }
  }

  /** Replaying a batch at once changes nothing. */
  lemma ImmediateReplay(s: Store, batch: seq<Event>)
    ensures IngestBatch(IngestBatch(s, batch), batch) == IngestBatch(s, batch)
  {
    DedupePreservesMerge(s, batch);
    DedupePreservesMerge(IngestBatch(s, batch), batch);
    UpsertAllConcat(s, batch, batch);
    ReplayAbsorbed(s, batch, batch);
  }

  /** The server's event table. */
  class UsageStore {
    var rows: Table

    constructor ()
      ensures rows == map[]
    {
      rows := map[];
    }

    /** A batch that fails validation is refused whole; otherwise every deduplicated event is resolved in turn. */
    method IngestEvents(events: seq<Event>, valid: bool) returns (accepted: nat, merged: nat)
      modifies this
      ensures valid ==> Wire(rows) == UpsertAll(Wire(old(rows)), events)
      ensures !valid ==> rows == old(rows) && accepted == merged == 0
      ensures valid ==> accepted == |FirstSeen(events)| && accepted + merged == |events|
    {
      if !valid {
        return 0, 0;
      }
      var deduped := DedupeKeepMax(events);
      ghost var before := Wire(rows);
      DedupePreservesMerge(before, events);
      var i := 0;
      while i < |deduped|
        invariant 0 <= i <= |deduped|
        invariant Wire(rows) == UpsertAll(before, deduped[..i])
      {
        assert deduped[..i + 1] == deduped[..i] + [deduped[i]];
        UpsertAllSnoc(before, deduped[..i], deduped[i]);
        var derived: string := *;
        var row := Row(deduped[i], derived);
        RevisionEngineIsUpsert(rows, row);
        if Resolve(row, StoredRow(rows, deduped[i].key)).write {
          rows := rows[deduped[i].key := row];
        }
        i := i + 1;
      }
      assert deduped[..i] == deduped;
      FirstSeenShorter(events);
      return |deduped|, |events| - |deduped|;
    }
  }

  lemma {:induction false} FirstSeenShorter(es: seq<Event>)
    ensures |FirstSeen(es)| <= |es|
    decreases |es|
  {
    if es != [] {
      FirstSeenShorter(es[..|es| - 1]);
    }
  }
}
