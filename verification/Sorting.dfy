/**
 Finite sets listed in the order of a strict total order, as `ORDER BY` and `sorted` list them,
 and keyset pagination over such a list.
 */
module Sorting {
  import opened Sequences
  import opened Wrappers

  ghost predicate TotalOrder<T(!new)>(less: (T, T) -> bool) {
    && (forall a :: !less(a, a))
    && (forall a, b :: less(a, b) || a == b || less(b, a))
    && (forall a, b, c :: less(a, b) && less(b, c) ==> less(a, c))
  }

  predicate Ascending<T(!new)>(s: seq<T>, less: (T, T) -> bool) {
    forall i, j :: 0 <= i < j < |s| ==> less(s[i], s[j])
  }

  predicate Lists<T(==)>(r: seq<T>, s: set<T>) {
    (forall x :: x in s ==> x in r) && (forall i :: 0 <= i < |r| ==> r[i] in s)
  }

  predicate IsLeast<T(==)>(x: T, s: set<T>, less: (T, T) -> bool) {
    x in s && forall y :: y in s ==> y == x || less(x, y)
  }

  lemma {:induction false} LeastExists<T(!new)>(s: set<T>, less: (T, T) -> bool)
    requires TotalOrder(less) && s != {}
    ensures exists x :: IsLeast(x, s, less)
    decreases s
  {
    var y :| y in s;
    var rest := s - {y};
    if rest == {} {
      assert s == {y} && IsLeast(y, s, less);
    } else {
      LeastExists(rest, less);
      var x :| IsLeast(x, rest, less);
      if less(x, y) {
        assert IsLeast(x, s, less);
      } else {
        assert less(y, x) && IsLeast(y, s, less);
      }
    }
  }

  function Least<T(!new, ==)>(s: set<T>, less: (T, T) -> bool): (x: T)
    requires TotalOrder(less) && s != {}
    ensures IsLeast(x, s, less)
  {
    LeastExists(s, less);
    assert forall x, y :: IsLeast(x, s, less) && IsLeast(y, s, less) ==> x == y;
    var x :| IsLeast(x, s, less);
    x
  }

  /** The members of a set in ascending order. */
  function Sorted<T(!new, ==)>(s: set<T>, less: (T, T) -> bool): (r: seq<T>)
    requires TotalOrder(less)
    ensures Lists(r, s) && Ascending(r, less) && |r| == |s|
    decreases s
  {
    if s == {} then []
    else
      var x := Least(s, less);
      var rest := Sorted(s - {x}, less);
      ConsLists(x, rest, s, less);
      [x] + rest
  }

  lemma ConsLists<T(!new)>(x: T, rest: seq<T>, s: set<T>, less: (T, T) -> bool)
    requires IsLeast(x, s, less) && Lists(rest, s - {x}) && Ascending(rest, less)
    ensures Lists([x] + rest, s) && Ascending([x] + rest, less)
  {
    forall y | y in s ensures y in [x] + rest {
      assert y == x || y in rest;
    }
    forall j | 0 <= j < |rest| ensures less(x, rest[j]) {
      assert rest[j] in s - {x};
    }
  }

  lemma EmptyListing<T(!new)>(a: seq<T>, s: set<T>)
    requires Lists(a, s)
    ensures a == [] <==> s == {}
  {
    if a != [] {
      assert a[0] in s;
    }
    if s != {} {
      var x :| x in s;
      assert x in a;
    }
  }

  /** A set has only one ascending listing. */
  lemma {:induction false} ListingUnique<T(!new)>(a: seq<T>, b: seq<T>, s: set<T>, less: (T, T) -> bool)
    requires TotalOrder(less) && Lists(a, s) && Lists(b, s) && Ascending(a, less) && Ascending(b, less)
    ensures a == b
    decreases |a|
  {
    EmptyListing(a, s);
    EmptyListing(b, s);
    if s != {} {
      HeadIsLeast(a, s, less);
      HeadIsLeast(b, s, less);
      TailLists(a, s, less);
      TailLists(b, s, less);
      ListingUnique(a[1..], b[1..], s - {a[0]}, less);
      assert a == [a[0]] + a[1..] && b == [b[0]] + b[1..];
    }
  }

  lemma HeadIsLeast<T(!new)>(a: seq<T>, s: set<T>, less: (T, T) -> bool)
    requires Lists(a, s) && Ascending(a, less) && a != []
    ensures IsLeast(a[0], s, less)
  {
    forall y | y in s ensures y == a[0] || less(a[0], y) {
      var i :| 0 <= i < |a| && a[i] == y;
    }
  }

  lemma TailLists<T(!new)>(a: seq<T>, s: set<T>, less: (T, T) -> bool)
    requires TotalOrder(less) && Lists(a, s) && Ascending(a, less) && a != []
    ensures Lists(a[1..], s - {a[0]}) && Ascending(a[1..], less)
  {
    forall x | x in s - {a[0]} ensures x in a[1..] {
      var i :| 0 <= i < |a| && a[i] == x;
      assert a[1..][i - 1] == x;
    }
  }


  function Elems<T(==)>(s: seq<T>): set<T> {
    set x | x in s
  }

  lemma PrefixElems<T(!new)>(part: seq<T>, all: seq<T>, whole: set<T>)
    requires part <= all && Lists(all, whole)
    ensures Elems(part) <= whole && (part == all ==> Elems(part) == whole)
  {
    assert forall i :: 0 <= i < |part| ==> part[i] == all[i];
  }

  // ----- keyset pagination -----

  /** The members strictly above the last key seen. */
  function Above<T(!new, ==)>(s: set<T>, last: Option<T>, less: (T, T) -> bool): set<T> {
    set x | x in s && (last.None? || less(last.value, x))
  }

  /** `WHERE key > last ORDER BY key LIMIT limit`. */
  function Page<T(!new, ==)>(s: set<T>, last: Option<T>, limit: nat, less: (T, T) -> bool): seq<T>
    requires TotalOrder(less)
  {
    var rest := Sorted(Above(s, last, less), less);
    rest[..Min(limit, |rest|)]
  }

  function LastOf<T>(read: seq<T>): Option<T> {
    if read == [] then None else Some(read[|read| - 1])
  }

  lemma PageOfListing<T(!new)>(rest: seq<T>, s: set<T>, last: Option<T>, limit: nat, less: (T, T) -> bool)
    requires TotalOrder(less) && Lists(rest, Above(s, last, less)) && Ascending(rest, less)
    ensures Page(s, last, limit, less) == rest[..Min(limit, |rest|)]
  {
    ListingUnique(rest, Sorted(Above(s, last, less), less), Above(s, last, less), less);
  }

  /** What a listing has after a prefix of it is the listing of what lies above the prefix. */
  lemma RestLists<T(!new)>(read: seq<T>, rest: seq<T>, whole: set<T>, less: (T, T) -> bool)
    requires TotalOrder(less) && Lists(read + rest, whole) && Ascending(read + rest, less)
    ensures Lists(rest, Above(whole, LastOf(read), less)) && Ascending(rest, less)
    ensures forall x :: x in read ==> x in whole && x !in Above(whole, LastOf(read), less)
  {
    var all := read + rest;
    forall i | 0 <= i < |rest| ensures rest[i] in Above(whole, LastOf(read), less) {
      assert all[|read| + i] == rest[i];
      assert read != [] ==> less(all[|read| - 1], all[|read| + i]);
    }
    forall x | x in read ensures x in whole && x !in Above(whole, LastOf(read), less) {
      var i :| 0 <= i < |read| && read[i] == x;
      assert all[i] == x && (i < |read| - 1 ==> less(all[i], all[|read| - 1]));
    }
    forall x | x in Above(whole, LastOf(read), less) ensures x in rest {
      assert x in all && x !in read;
    }
    forall i, j | 0 <= i < j < |rest| ensures less(rest[i], rest[j]) {
      assert less(all[|read| + i], all[|read| + j]);
    }
  }

  /** Whatever has left the set `whole` had been read before. */
  predicate OnlyReadGone<T(==)>(whole: set<T>, now: set<T>, read: seq<T>) {
    now <= whole && forall x :: x in whole && x !in now ==> x in read
  }

  /**
   Reading on from the last key continues the listing exactly where the scan stopped, although
   members already read may have been deleted from the set since.
   */
  lemma PageContinues<T(!new)>(read: seq<T>, rest: seq<T>, whole: set<T>, now: set<T>, limit: nat, less: (T, T) -> bool)
    requires TotalOrder(less) && Lists(read + rest, whole) && Ascending(read + rest, less)
    requires OnlyReadGone(whole, now, read)
    ensures Page(now, LastOf(read), limit, less) == rest[..Min(limit, |rest|)]
    ensures Ascending(rest, less) && forall x :: x in rest ==> x in now
  {
    RestLists(read, rest, whole, less);
    assert Above(now, LastOf(read), less) == Above(whole, LastOf(read), less);
    PageOfListing(rest, now, LastOf(read), limit, less);
  }

  /** The page `rows` carries a scan of the listing `all` on from its prefix `read`. */
  ghost predicate Continues<T(!new)>(all: seq<T>, read: seq<T>, now: set<T>, limit: nat, less: (T, T) -> bool,
      rows: seq<T>)
  {
    && |rows| <= limit && read + rows <= all
    && (|rows| < limit ==> read + rows == all)
    && (forall i :: 0 <= i < |rows| ==> rows[i] in now)
    && Ascending(rows, less)
  }

  lemma RestOf<T>(all: seq<T>, read: seq<T>) returns (rest: seq<T>)
    requires read <= all
    ensures read + rest == all
  {
    rest := all[|read|..];
  }

  lemma RestStarts<T(!new)>(read: seq<T>, rest: seq<T>, now: set<T>, limit: nat, less: (T, T) -> bool)
    requires Ascending(rest, less) && forall x :: x in rest ==> x in now
    ensures Continues(read + rest, read, now, limit, less, rest[..Min(limit, |rest|)])
  {
    var rows := rest[..Min(limit, |rest|)];
    assert read + rest == (read + rows) + rest[|rows|..];
    assert forall i :: 0 <= i < |rows| ==> rows[i] == rest[i];
  }

  /** One round of a keyset-paginated scan that has read the prefix `read` of the listing of `whole`. */
  method ReadPage<T(!new, ==)>(now: set<T>, last: Option<T>, limit: nat, less: (T, T) -> bool,
                               ghost whole: set<T>, ghost all: seq<T>, ghost read: seq<T>) returns (rows: seq<T>)
    requires TotalOrder(less) && all == Sorted(whole, less) && read <= all && last == LastOf(read)
    requires OnlyReadGone(whole, now, read)
    ensures Continues(all, read, now, limit, less, rows)
  {
    ghost var rest := RestOf(all, read);
    PageContinues(read, rest, whole, now, limit, less);
    rows := Page(now, last, limit, less);
    RestStarts(read, rest, now, limit, less);
  }

  // ----- scans that only read -----

  function Fold<S, T>(step: (S, T) -> S, start: S, keys: seq<T>): S {
    if keys == [] then start else step(Fold(step, start, keys[..|keys| - 1]), keys[|keys| - 1])
  }

  lemma {:induction false} FoldConcat<S, T>(step: (S, T) -> S, start: S, a: seq<T>, b: seq<T>)
    ensures Fold(step, start, a + b) == Fold(step, Fold(step, start, a), b)
    decreases |b|
  {
    if b == [] {
      assert a + b == a;
    } else {
      assert (a + b)[..|a + b| - 1] == a + b[..|b| - 1];
      FoldConcat(step, start, a, b[..|b| - 1]);
    }
  }

  lemma FoldSnoc<S, T>(step: (S, T) -> S, start: S, init: seq<T>, last: T)
    ensures Fold(step, start, init + [last]) == step(Fold(step, start, init), last)
  {
    assert (init + [last])[..|init|] == init;
  }

  /** Accumulates over a table page by page, in key order. A limit of zero reads nothing. */
  method Scan<S, T(!new, ==)>(keys: set<T>, limit: nat, less: (T, T) -> bool, step: (S, T) -> S, start: S)
      returns (s: S)
    requires TotalOrder(less)
    ensures s == if limit > 0 then Fold(step, start, Sorted(keys, less)) else start
  {
    ghost var all, read: seq<T> := Sorted(keys, less), [];
    s := start;
    var last: Option<T> := None;
    while true
      invariant read <= all && last == LastOf(read)
      invariant s == Fold(step, start, read)
      invariant limit == 0 ==> read == []
      decreases |all| - |read|
    {
      var rows := ReadPage(keys, last, limit, less, keys, all, read);
      if rows == [] {
        assert read + rows == read;
        break;
      }
      FoldConcat(step, start, read, rows);
      s := AddRows(step, s, rows);
      last, read := Some(rows[|rows| - 1]), read + rows;
      if |rows| < limit {
        break;
      }
    }
  }

  method AddRows<S, T>(step: (S, T) -> S, start: S, rows: seq<T>) returns (s: S)
    ensures s == Fold(step, start, rows)
  {
    s := start;
    var i := 0;
    while i < |rows|
      invariant 0 <= i <= |rows| && s == Fold(step, start, rows[..i])
    {
      assert rows[..i + 1][..i] == rows[..i];
      s := step(s, rows[i]);
      i := i + 1;
    }
    assert rows[..i] == rows;
  }

  function Kept<T(!new)>(keep: T -> bool, keys: seq<T>): (r: seq<T>)
    ensures forall x :: x in r <==> x in keys && keep(x)
  {
    if keys == [] then []
    else Kept(keep, keys[..|keys| - 1]) + if keep(keys[|keys| - 1]) then [keys[|keys| - 1]] else []
  }

  lemma {:induction false} KeptAscends<T(!new)>(keep: T -> bool, keys: seq<T>, less: (T, T) -> bool)
    requires Ascending(keys, less)
    ensures Ascending(Kept(keep, keys), less)
    decreases |keys|
  {
    if keys != [] {
      var init, k := keys[..|keys| - 1], keys[|keys| - 1];
      KeptAscends(keep, init, less);
      forall x | x in init ensures less(x, k) {
        var i :| 0 <= i < |init| && init[i] == x;
        assert keys[i] == x;
      }
    }
  }

  /** Passing over some keys is the same as not having them. */
  lemma {:induction false} FoldKept<S(!new), T(!new)>(skip: (Option<S>, T) -> Option<S>, step: (S, T) -> S,
      keep: T -> bool, start: S, keys: seq<T>)
    requires forall s, x :: skip(Some(s), x) == Some(if keep(x) then step(s, x) else s)
    ensures Fold(skip, Some(start), keys) == Some(Fold(step, start, Kept(keep, keys)))
    decreases |keys|
  {
    if keys != [] {
      var init, k := keys[..|keys| - 1], keys[|keys| - 1];
      var kept := Kept(keep, init);
      var s := Fold(step, start, kept);
      FoldKept(skip, step, keep, start, init);
      FoldSnoc(step, start, kept, k);
      assert Fold(skip, Some(start), keys) == skip(Some(s), k);
      assert Kept(keep, keys) == if keep(k) then kept + [k] else kept;
    }
  }
}
