/**
 Flood control of limit snapshots: how long after the last stored snapshot of a stream the next one
 is stored.
 */
module FloodControl {
  import opened Wrappers

  /** A stream is one window of one provider as seen by one source. */
  datatype Stream = Stream(source: Option<int>, provider: string, window: string)

  datatype Snapshot = Snapshot(stream: Stream, ts: int, rest: string)

  type Rows = seq<Snapshot>

  function Max(a: Option<int>, b: int): int {
    if a.Some? && a.value >= b then a.value else b
  }

  /** `SELECT max(ts)` over the stored snapshots of a stream. */
  function Latest(rows: Rows, s: Stream): Option<int> {
    if rows == [] then None
    else
      var before, last := Latest(rows[..|rows| - 1], s), rows[|rows| - 1];
      if last.stream == s then Some(Max(before, last.ts)) else before
  }

  predicate TooSoon(latest: Option<int>, ts: int, interval: int) {
    latest.Some? && ts - latest.value < interval
  }

  /** The plain rule, one snapshot at a time against everything stored before it. */
  function Store(rows: Rows, s: Snapshot, interval: int): Rows {
    if interval > 0 && TooSoon(Latest(rows, s.stream), s.ts, interval) then rows else rows + [s]
  }

  function StoreAll(rows: Rows, snapshots: seq<Snapshot>, interval: int): Rows {
    if snapshots == [] then rows
    else Store(StoreAll(rows, snapshots[..|snapshots| - 1], interval), snapshots[|snapshots| - 1], interval)
  }

  lemma LatestSnoc(rows: Rows, x: Snapshot, s: Stream)
    ensures Latest(rows + [x], s) == if x.stream == s then Some(Max(Latest(rows, s), x.ts)) else Latest(rows, s)
  {
    assert (rows + [x])[..|rows|] == rows;
  }

  /** A snapshot is kept exactly when every stored one of its stream is at least the interval older. */
  lemma {:induction false} TooSoonMeaning(rows: Rows, s: Stream, ts: int, interval: int)
    ensures !TooSoon(Latest(rows, s), ts, interval) <==>
      forall i :: 0 <= i < |rows| && rows[i].stream == s ==> ts - rows[i].ts >= interval
    decreases |rows|
  {
    if rows != [] {
      var init := rows[..|rows| - 1];
      TooSoonMeaning(init, s, ts, interval);
      assert forall i :: 0 <= i < |init| ==> init[i] == rows[i];
    }
  }

  /**
   Nothing is dropped without need: a snapshot becomes the newest row, unless the control is on and a
   stored one of its stream is closer than the interval.
   */
  lemma StoreMeaning(rows: Rows, s: Snapshot, interval: int)
    ensures Store(rows, s, interval) ==
      if interval > 0 && exists i :: 0 <= i < |rows| && rows[i].stream == s.stream && s.ts - rows[i].ts < interval
      then rows else rows + [s]
  {
    TooSoonMeaning(rows, s.stream, s.ts, interval);
  }

  /** Every dropped snapshot of a batch was too close to one that is stored. */
  lemma {:induction false} DroppedWereClose(rows: Rows, snapshots: seq<Snapshot>, interval: int, n: nat)
    requires n < |snapshots|
    ensures var all := StoreAll(rows, snapshots, interval);
      snapshots[n] in all || exists i :: 0 <= i < |all| && all[i].stream == snapshots[n].stream
                                         && snapshots[n].ts - all[i].ts < interval
    ensures rows <= StoreAll(rows, snapshots, interval)
    decreases |snapshots|
  {
    var init, last := snapshots[..|snapshots| - 1], snapshots[|snapshots| - 1];
    var before := StoreAll(rows, init, interval);
    StoreMeaning(before, last, interval);
    if n < |init| {
      DroppedWereClose(rows, init, interval, n);
      if snapshots[n] !in before {
        var i :| 0 <= i < |before| && before[i].stream == snapshots[n].stream
                 && snapshots[n].ts - before[i].ts < interval;
        assert StoreAll(rows, snapshots, interval)[i] == before[i];
      }
    } else if init != [] {
      DroppedWereClose(rows, init, interval, 0);
    }
  }

  /** Within each stream, every later row is at least the interval after every earlier one. */
  predicate Spaced(rows: Rows, interval: int) {
    forall i, j :: 0 <= i < j < |rows| && rows[i].stream == rows[j].stream ==> rows[j].ts - rows[i].ts >= interval
  }

  lemma StoreKeepsSpaced(rows: Rows, s: Snapshot, interval: int)
    requires interval > 0 && Spaced(rows, interval)
    ensures Spaced(Store(rows, s, interval), interval)
  {
    TooSoonMeaning(rows, s.stream, s.ts, interval);
  }

  /** The guarantee over any number of batches: streams stay spaced, in whatever order snapshots arrive. */
  lemma {:induction false} BatchesKeepSpaced(rows: Rows, snapshots: seq<Snapshot>, interval: int)
    requires interval > 0 && Spaced(rows, interval)
    ensures Spaced(StoreAll(rows, snapshots, interval), interval)
    decreases |snapshots|
  {
    if snapshots != [] {
      BatchesKeepSpaced(rows, snapshots[..|snapshots| - 1], interval);
      StoreKeepsSpaced(StoreAll(rows, snapshots[..|snapshots| - 1], interval), snapshots[|snapshots| - 1], interval);
    }
  }

  /** It does not matter how the snapshots are divided into batches. */
  lemma {:induction false} StoreAllConcat(rows: Rows, a: seq<Snapshot>, b: seq<Snapshot>, interval: int)
    ensures StoreAll(rows, a + b, interval) == StoreAll(StoreAll(rows, a, interval), b, interval)
    decreases |b|
  {
    if b == [] {
      assert a + b == a;
    } else {
      assert (a + b)[..|a + b| - 1] == a + b[..|b| - 1];
      StoreAllConcat(rows, a, b[..|b| - 1], interval);
    }
  }

  /** The snapshot table. A batch is added to it as a whole, after all of it has been looked at. */
  class SnapshotTable {
    var rows: Rows

    constructor ()
      ensures rows == []
    {
      rows := [];
    }

    /**
     Remembers, per stream, the last timestamp accepted in this batch and asks the table only for
     streams not accepted yet. This comes to the plain rule.
     */
    method IngestLimits(snapshots: seq<Snapshot>, interval: int) returns (accepted: nat)
      modifies this
      ensures rows == StoreAll(old(rows), snapshots, interval)
      ensures accepted == |rows| - |old(rows)|
      ensures interval > 0 && Spaced(old(rows), interval) ==> Spaced(rows, interval)
    {
      var lastTs: map<Stream, int> := map[];
      var added: Rows := [];
      for i := 0 to |snapshots|
        invariant rows + added == StoreAll(rows, snapshots[..i], interval)
        invariant interval > 0 ==> forall s :: Threshold(lastTs, rows, s) == Latest(rows + added, s)
      {
        assert snapshots[..i + 1][..i] == snapshots[..i];
        var s := snapshots[i];
        var threshold := if s.stream in lastTs then Some(lastTs[s.stream]) else Latest(rows, s.stream);
        if interval > 0 && TooSoon(threshold, s.ts, interval) {
          continue;
        }
        assert interval > 0 ==> threshold == Latest(rows + added, s.stream);
        forall t ensures Latest(rows + (added + [s]), t) ==
          if s.stream == t then Some(Max(Latest(rows + added, t), s.ts)) else Latest(rows + added, t)
        {
          assert rows + (added + [s]) == (rows + added) + [s];
          LatestSnoc(rows + added, s, t);
        }
        assert rows + (added + [s]) == (rows + added) + [s];
        lastTs := lastTs[s.stream := s.ts];
        added := added + [s];
      }
      assert snapshots[..|snapshots|] == snapshots;
      if interval > 0 && Spaced(rows, interval) {
        BatchesKeepSpaced(rows, snapshots, interval);
      }
      accepted := |added|;
      rows := rows + added;
    }
  }

  function Threshold(lastTs: map<Stream, int>, rows: Rows, s: Stream): Option<int> {
    if s in lastTs then Some(lastTs[s]) else Latest(rows, s)
  }
}
