/**
 Moving the first usage table into the second one: a copy in chunks, and its reversal.

 Both scans page through a table by key. The database's order of keys is a parameter; whatever
 total order it is, an interrupted copy can be rerun and a removal deletes what it should.
 */
module Backfill {
  import opened Wrappers
  import opened Sorting
  import KeepMax

  type Key = KeepMax.Key

  /** How the database orders the pair of columns `(provider, event_id)`; collations differ. */
  type KeyOrder = (Key, Key) -> bool

  // ----- rows -----

  datatype Tokens = Tokens(input: int, output: int, cacheRead: int, cacheWriteShort: int, cacheWriteLong: int)

  datatype Instant = Instant(day: int, time: int)

  /** A value in a row's `extra`: an object, of which only the cost entry is looked at, or anything else. */
  datatype Value = Object(cost: Option<int>, others: string) | Scalar(text: string, truthy: bool)

  type Extra = map<string, Value>

  /** `columns` are the columns both tables have; `only` are those the second table lacks. */
  datatype V1Row = V1Row(ts: Instant, machine: Option<string>, tokens: Tokens, cost: Option<int>,
                         columns: string, only: string, extra: Extra)

  /** `kind` is the event kind; `native` stands for the columns the first table lacks. */
  datatype V2Row = V2Row(ts: Instant, machine: Option<string>, tokens: Tokens, cost: Option<int>,
                         columns: string, kind: string, native: string, extra: Option<Extra>)

  type V1Table = map<Key, V1Row>
  type V2Table = map<Key, V2Row>

  const V1_NAMESPACE := "_v1"
  const BACKFILL_MARKER := "_backfill"
  const ATTEMPT := "attempt"

  /** The defaults a copied row gets in the columns the first table lacks. */
  const COPIED := "final, sequence 0"

  /** The second table's row for a row of the first. */
  function Image(r: V1Row): V2Row {
    V2Row(r.ts, r.machine, r.tokens, r.cost, r.columns, ATTEMPT, COPIED,
          Some(r.extra[V1_NAMESPACE := Object(r.cost, r.only)][BACKFILL_MARKER := Scalar("true", true)]))
  }

  predicate Truthy(v: Value) {
    match v
    case Object(cost, others) => cost.Some? || others != ""
    case Scalar(_, truthy) => truthy
  }

  predicate Marked(r: V2Row) {
    r.extra.Some? && BACKFILL_MARKER in r.extra.value && Truthy(r.extra.value[BACKFILL_MARKER])
  }

  /** The compatibility view's row for a row of the second table, if it shows one. */
  function View(r: V2Row): Option<V1Row> {
    if r.kind != ATTEMPT then None else
    var extra := if r.extra.Some? then r.extra.value else map[];
    var only := if V1_NAMESPACE in extra && extra[V1_NAMESPACE].Object? then extra[V1_NAMESPACE].others else "";
    Some(V1Row(r.ts, r.machine, r.tokens, r.cost, r.columns, only, extra - {V1_NAMESPACE, BACKFILL_MARKER}))
  }

  /** The view shows a copied row exactly as it was if and only if it used neither of the two reserved keys. */
  lemma ViewOfImage(r: V1Row)
    ensures View(Image(r)) == Some(r) <==> V1_NAMESPACE !in r.extra && BACKFILL_MARKER !in r.extra
    ensures View(Image(r)).Some? && View(Image(r)).value.(extra := r.extra) == r
  {
    var shown := View(Image(r)).value.extra;
    if V1_NAMESPACE !in r.extra && BACKFILL_MARKER !in r.extra {
      assert shown == r.extra;
    } else {
      assert V1_NAMESPACE !in shown && BACKFILL_MARKER !in shown;
    }
  }

  // ----- copying -----

  /** The second table with the images of the rows in `done` that it did not have. */
  function Copied(v1: V1Table, v2: V2Table, done: set<Key>): V2Table
    requires done <= v1.Keys
  {
    map k | k in v2.Keys + done :: if k in v2 then v2[k] else Image(v1[k])
  }

  /** Copying twice is copying both sets once: an interrupted copy can be continued, or started over. */
  lemma CopiedTwice(v1: V1Table, v2: V2Table, first: set<Key>, second: set<Key>)
    requires first <= v1.Keys && second <= v1.Keys
    ensures Copied(v1, Copied(v1, v2, first), second) == Copied(v1, v2, first + second)
  {
    var a, b := Copied(v1, Copied(v1, v2, first), second), Copied(v1, v2, first + second);
    assert a.Keys == b.Keys;
  }

  /** Whatever was already copied when a run stopped, running again gives the one-shot copy. */
  lemma RerunCompletes(v1: V1Table, v2: V2Table, done: set<Key>)
    requires done <= v1.Keys
    ensures Copied(v1, Copied(v1, v2, done), v1.Keys) == Copied(v1, v2, v1.Keys)
  {
    CopiedTwice(v1, v2, done, v1.Keys);
    assert done + v1.Keys == v1.Keys;
  }

  function Unmarked(v2: V2Table): V2Table {
    map k | k in v2 && !Marked(v2[k]) :: v2[k]
  }

  /** Removing what is marked undoes any copy, complete or not, exactly when nothing was marked before. */
  lemma RemovalUndoesCopy(v1: V1Table, v2: V2Table, done: set<Key>)
    requires done <= v1.Keys
    ensures Unmarked(Copied(v1, v2, done)) == Unmarked(v2)
    ensures Unmarked(Copied(v1, v2, done)) == v2 <==> forall k :: k in v2 ==> !Marked(v2[k])
  {
    assert Unmarked(Copied(v1, v2, done)) == Unmarked(v2);
    if forall k :: k in v2 ==> !Marked(v2[k]) {
      assert Unmarked(v2) == v2;
    } else {
      var k :| k in v2 && Marked(v2[k]);
      assert k !in Unmarked(v2);
    }
  }

  // ----- the copy and its reversal, one key after another -----

  function InsertIgnore(v1: V1Table, v2: V2Table, k: Key): V2Table {
    if k in v2 || k !in v1 then v2 else v2[k := Image(v1[k])]
  }

  function CopyKeys(v1: V1Table, v2: V2Table, keys: seq<Key>): V2Table {
    if keys == [] then v2 else InsertIgnore(v1, CopyKeys(v1, v2, keys[..|keys| - 1]), keys[|keys| - 1])
  }

  lemma {:induction false} CopyKeysConcat(v1: V1Table, v2: V2Table, a: seq<Key>, b: seq<Key>)
    ensures CopyKeys(v1, v2, a + b) == CopyKeys(v1, CopyKeys(v1, v2, a), b)
    decreases |b|
  {
    if b == [] {
      assert a + b == a;
    } else {
      assert (a + b)[..|a + b| - 1] == a + b[..|b| - 1];
      CopyKeysConcat(v1, v2, a, b[..|b| - 1]);
    }
  }

  lemma {:induction false} CopyKeysMeaning(v1: V1Table, v2: V2Table, keys: seq<Key>)
    requires forall i :: 0 <= i < |keys| ==> keys[i] in v1
    ensures Elems(keys) <= v1.Keys && CopyKeys(v1, v2, keys) == Copied(v1, v2, Elems(keys))
    decreases |keys|
  {
    if keys != [] {
      var init, k := keys[..|keys| - 1], keys[|keys| - 1];
      CopyKeysMeaning(v1, v2, init);
      assert Elems(keys) == Elems(init) + {k};
      assert Copied(v1, v2, Elems(keys)) == InsertIgnore(v1, Copied(v1, v2, Elems(init)), k);
    }
  }

  function DropMarked(v2: V2Table, k: Key): V2Table {
    if k in v2 && Marked(v2[k]) then v2 - {k} else v2
  }

  function DropKeys(v2: V2Table, keys: seq<Key>): V2Table {
    if keys == [] then v2 else DropMarked(DropKeys(v2, keys[..|keys| - 1]), keys[|keys| - 1])
  }

  lemma {:induction false} DropKeysConcat(v2: V2Table, a: seq<Key>, b: seq<Key>)
    ensures DropKeys(v2, a + b) == DropKeys(DropKeys(v2, a), b)
    decreases |b|
  {
    if b == [] {
      assert a + b == a;
    } else {
      assert (a + b)[..|a + b| - 1] == a + b[..|b| - 1];
      DropKeysConcat(v2, a, b[..|b| - 1]);
    }
  }

  lemma {:induction false} DropKeysMeaning(v2: V2Table, keys: seq<Key>)
    ensures DropKeys(v2, keys) == map k | k in v2 && !(k in keys && Marked(v2[k])) :: v2[k]
    decreases |keys|
  {
    if keys != [] {
      DropKeysMeaning(v2, keys[..|keys| - 1]);
      assert keys == keys[..|keys| - 1] + [keys[|keys| - 1]];
    }
  }

  lemma DropOne(v2: V2Table, k: Key)
    ensures |DropMarked(v2, k).Keys| + (if k in v2 && Marked(v2[k]) then 1 else 0) == |v2.Keys|
  {
    if k in v2 {
      assert v2.Keys == (v2 - {k}).Keys + {k};
    }
  }

  /** While marked rows are being dropped in key order, only keys already read are gone. */
  lemma DroppedWereRead(v2: V2Table, read: seq<Key>)
    ensures OnlyReadGone(v2.Keys, DropKeys(v2, read).Keys, read)
  {
    DropKeysMeaning(v2, read);
  }

  lemma DroppedAll(v2: V2Table, all: seq<Key>)
    requires Lists(all, v2.Keys)
    ensures DropKeys(v2, all) == Unmarked(v2)
  {
    DropKeysMeaning(v2, all);
  }

  // ----- the scans -----

  /** The process is stopped before it has seen the end of the table. */
  predicate StopsEarly(total: nat, chunkSize: nat, stopAt: Option<nat>) {
    stopAt.Some? && RowsIn(stopAt.value, chunkSize) <= total
  }

  /** How many rows are read: all of them, or those of the chunks before the stop; none in empty chunks. */
  function Reached(total: nat, chunkSize: nat, stopAt: Option<nat>): (r: nat)
    ensures r <= total
  {
    if chunkSize == 0 then 0
    else if StopsEarly(total, chunkSize, stopAt) then RowsIn(stopAt.value, chunkSize)
    else total
  }

  /** The rows of so many full chunks. */
  function RowsIn(chunks: nat, chunkSize: nat): nat {
    if chunks == 0 then 0 else RowsIn(chunks - 1, chunkSize) + chunkSize
  }

  lemma {:induction false} RowsInMeaning(chunks: nat, chunkSize: nat)
    ensures RowsIn(chunks, chunkSize) == chunks * chunkSize
    decreases chunks
  {
    if chunks > 0 {
      RowsInMeaning(chunks - 1, chunkSize);
    }
  }

  lemma {:induction false} MoreChunks(m: nat, n: nat, chunkSize: nat)
    requires m <= n
    ensures RowsIn(m, chunkSize) <= RowsIn(n, chunkSize)
    decreases n
  {
    if m < n {
      MoreChunks(m, n - 1, chunkSize);
    }
  }

  lemma StoppedAt(total: nat, chunkSize: nat, chunks: nat)
    requires RowsIn(chunks, chunkSize) <= total
    ensures Reached(total, chunkSize, Some(chunks)) == RowsIn(chunks, chunkSize)
    ensures StopsEarly(total, chunkSize, Some(chunks))
  {
    RowsInMeaning(chunks, chunkSize);
    if chunkSize == 0 {
      assert chunks * chunkSize == 0;
    }
  }

  /** The table ends within the next chunk. */
  lemma RanOut(total: nat, chunkSize: nat, chunks: nat, rest: nat, stopAt: Option<nat>)
    requires if chunkSize == 0 then rest == 0 else total == RowsIn(chunks, chunkSize) + rest && rest < chunkSize
    requires stopAt.Some? ==> chunks < stopAt.value
    ensures Reached(total, chunkSize, stopAt) == RowsIn(chunks, chunkSize) + rest
    ensures chunkSize > 0 ==> !StopsEarly(total, chunkSize, stopAt)
  {
    if chunkSize == 0 {
      RowsInMeaning(chunks, 0);
    } else if stopAt.Some? {
      MoreChunks(chunks + 1, stopAt.value, chunkSize);
    }
  }

  /** The next rows have been read and copied, fewer than a chunk only at the end of the table. */
  ghost predicate ReadNext(v1: V1Table, before: V2Table, after: V2Table, all: seq<Key>, read: seq<Key>,
      rows: seq<Key>, chunkSize: nat)
  {
    && |rows| <= chunkSize && read + rows <= all && (|rows| < chunkSize ==> read + rows == all)
    && after == CopyKeys(v1, before, read + rows)
  }

  /** So many full chunks have been copied. */
  ghost predicate Copying(v1: V1Table, before: V2Table, after: V2Table, all: seq<Key>, read: seq<Key>,
      last: Option<Key>, chunks: nat, chunkSize: nat, stopAt: Option<nat>)
  {
    && read <= all && last == LastOf(read) && after == CopyKeys(v1, before, read)
    && |read| == RowsIn(chunks, chunkSize) && (stopAt.Some? ==> chunks <= stopAt.value)
  }

  /** The copy is over, at the end of the table or where it was stopped. */
  ghost predicate CopyEnds(v1: V1Table, before: V2Table, after: V2Table, all: seq<Key>, read: seq<Key>,
      chunkSize: nat, stopAt: Option<nat>, finished: bool)
  {
    && read <= all && after == CopyKeys(v1, before, read) && |read| == Reached(|all|, chunkSize, stopAt)
    && (chunkSize > 0 ==> (finished <==> !StopsEarly(|all|, chunkSize, stopAt)))
  }

  lemma NextCopied(v1: V1Table, before: V2Table, soFar: V2Table, after: V2Table, all: seq<Key>, read: seq<Key>,
      last: Option<Key>, rows: seq<Key>, chunks: nat, chunkSize: nat, stopAt: Option<nat>)
    requires Copying(v1, before, soFar, all, read, last, chunks, chunkSize, stopAt)
    requires stopAt.Some? ==> chunks < stopAt.value
    requires ReadNext(v1, before, after, all, read, rows, chunkSize)
    ensures if rows == [] || |rows| < chunkSize then
        CopyEnds(v1, before, after, all, read + rows, chunkSize, stopAt, true)
      else Copying(v1, before, after, all, read + rows, Some(rows[|rows| - 1]), chunks + 1, chunkSize, stopAt)
  {
    if rows == [] || |rows| < chunkSize {
      RanOut(|all|, chunkSize, chunks, |rows|, stopAt);
    }
  }

  lemma CopyStopped(v1: V1Table, before: V2Table, after: V2Table, all: seq<Key>, read: seq<Key>, last: Option<Key>,
      chunks: nat, chunkSize: nat, stopAt: Option<nat>)
    requires Copying(v1, before, after, all, read, last, chunks, chunkSize, stopAt) && stopAt == Some(chunks)
    ensures CopyEnds(v1, before, after, all, read, chunkSize, stopAt, false)
  {
    StoppedAt(|all|, chunkSize, chunks);
  }

  lemma CopyDone(v1: V1Table, before: V2Table, after: V2Table, all: seq<Key>, read: seq<Key>, chunkSize: nat,
      stopAt: Option<nat>, finished: bool)
    requires CopyEnds(v1, before, after, all, read, chunkSize, stopAt, finished) && Lists(all, v1.Keys)
    ensures after == Copied(v1, before, Elems(read))
    ensures chunkSize > 0 && finished ==> after == Copied(v1, before, v1.Keys)
    ensures chunkSize == 0 ==> after == before
  {
    PrefixElems(read, all, v1.Keys);
    CopyKeysMeaning(v1, before, read);
  }

  /** The two tables during the migration. */
  class Migration {
    const less: KeyOrder
    var v1: V1Table
    var v2: V2Table

    constructor (v1: V1Table, v2: V2Table, less: KeyOrder)
      ensures this.v1 == v1 && this.v2 == v2 && this.less == less
    {
      this.v1, this.v2, this.less := v1, v2, less;
    }

    /** One chunk: the next rows in key order, each copied unless its key is taken. */
    method CopyChunk(last: Option<Key>, chunkSize: nat, ghost before: V2Table, ghost all: seq<Key>,
        ghost read: seq<Key>)
        returns (rows: seq<Key>)
      requires TotalOrder(less) && all == Sorted(v1.Keys, less) && read <= all && last == LastOf(read)
      requires v2 == CopyKeys(v1, before, read)
      modifies this`v2
      ensures ReadNext(v1, before, v2, all, read, rows, chunkSize)
    {
      rows := ReadPage(v1.Keys, last, chunkSize, less, v1.Keys, all, read);
      CopyKeysConcat(v1, before, read, rows);
      v2 := CopyKeys(v1, v2, rows);
    }

    /**
     The copy loop: `read` is what it has read of the table's keys, in order. If the process is to be
     stopped, it is before its chunk number `stopAt`.
     */
    method CopyChunks(chunkSize: nat, stopAt: Option<nat>, ghost all: seq<Key>)
        returns (processed: nat, finished: bool, ghost read: seq<Key>)
      requires TotalOrder(less) && all == Sorted(v1.Keys, less)
      modifies this`v2
      ensures CopyEnds(v1, old(v2), v2, all, read, chunkSize, stopAt, finished) && processed == |read|
    {
      ghost var before := v2;
      processed, read := 0, [];
      var last: Option<Key> := None;
      var chunks := 0;
      while stopAt.None? || chunks < stopAt.value
        invariant Copying(v1, before, v2, all, read, last, chunks, chunkSize, stopAt) && processed == |read|
        decreases |all| - |read|
      {
        ghost var soFar := v2;
        var rows := CopyChunk(last, chunkSize, before, all, read);
        NextCopied(v1, before, soFar, v2, all, read, last, rows, chunks, chunkSize, stopAt);
        read := read + rows;
        processed := processed + |rows|;
        if rows == [] || |rows| < chunkSize {
          return processed, true, read;
        }
        last, chunks := Some(rows[|rows| - 1]), chunks + 1;
      }
      finished := false;
      CopyStopped(v1, before, v2, all, read, last, chunks, chunkSize, stopAt);
    }

    /**
     Copies chunk after chunk in key order. The process may be stopped before any chunk; then the rows of
     the chunks before it have been copied, and otherwise all. The first table is only read.
     */
    method BackfillRows(chunkSize: nat, stopAt: Option<nat>)
        returns (processed: nat, finished: bool, ghost done: seq<Key>)
      requires TotalOrder(less)
      modifies this`v2
      ensures done <= Sorted(v1.Keys, less) && v2 == Copied(v1, old(v2), Elems(done))
      ensures processed == |done| == Reached(|v1.Keys|, chunkSize, stopAt)
      ensures chunkSize > 0 ==> (finished <==> !StopsEarly(|v1.Keys|, chunkSize, stopAt))
      ensures chunkSize > 0 && finished ==> v2 == Copied(v1, old(v2), v1.Keys)
      ensures chunkSize == 0 ==> v2 == old(v2)
    {
      ghost var before, all := v2, Sorted(v1.Keys, less);
      processed, finished, done := CopyChunks(chunkSize, stopAt, all);
      CopyDone(v1, before, v2, all, done, chunkSize, stopAt, finished);
    }

    /** Deletes the marked rows while scanning the table they are deleted from. */
    method RemoveBackfilledRows(chunkSize: nat) returns (removed: nat)
      requires TotalOrder(less)
      modifies this`v2
      ensures chunkSize > 0 ==> v2 == Unmarked(old(v2))
      ensures chunkSize == 0 ==> v2 == old(v2)
      ensures removed + |v2.Keys| == |old(v2).Keys|
    {
      ghost var before, all, read: seq<Key> := v2, Sorted(v2.Keys, less), [];
      removed := 0;
      var last: Option<Key> := None;
      while true
        invariant read <= all && last == LastOf(read)
        invariant v2 == DropKeys(before, read) && removed + |v2.Keys| == |before.Keys|
        invariant chunkSize == 0 ==> read == []
        decreases |all| - |read|
      {
        DroppedWereRead(before, read);
        var rows := ReadPage(v2.Keys, last, chunkSize, less, before.Keys, all, read);
        if rows == [] {
          assert read + rows == read;
          break;
        }
        last := Some(rows[|rows| - 1]);
        DropKeysConcat(before, read, rows);
        var count := DeleteMarked(rows);
        removed, read := removed + count, read + rows;
        if |rows| < chunkSize {
          break;
        }
      }
      if chunkSize > 0 {
        DroppedAll(before, read);
      }
    }

    /** Deletes the marked rows of one chunk. */
    method DeleteMarked(rows: seq<Key>) returns (count: nat)
      modifies this`v2
      ensures v2 == DropKeys(old(v2), rows)
      ensures count + |v2.Keys| == |old(v2).Keys|
    {
      ghost var before := v2;
      var i := 0;
      count := 0;
      while i < |rows|
        invariant 0 <= i <= |rows|
        invariant v2 == DropKeys(before, rows[..i]) && count + |v2.Keys| == |before.Keys|
      {
        assert rows[..i + 1][..i] == rows[..i];
        DropOne(v2, rows[i]);
        if rows[i] in v2 && Marked(v2[rows[i]]) {
          v2 := v2 - {rows[i]};
          count := count + 1;
        }
        i := i + 1;
      }
      assert rows[..i] == rows;
    }
  }
}
