/**
 The comparison that must succeed before the first usage table is replaced by a view of the
 second: totals per day, provider and machine, taken over each table in chunks.
 */
module BackfillVerification {
  import opened Wrappers
  import opened Sorting
  import opened Backfill
  import KeepMax
  import Ordering

  // ----- totals -----

  datatype Group = Group(day: int, provider: string, machine: string)

  datatype Totals = Totals(count: nat, cost: int, tokens: Tokens)

  const ZERO := Totals(0, 0, Tokens(0, 0, 0, 0, 0))

  type Aggregate = map<Group, Totals>

  function AddTokens(a: Tokens, b: Tokens): Tokens {
    Tokens(a.input + b.input, a.output + b.output, a.cacheRead + b.cacheRead,
           a.cacheWriteShort + b.cacheWriteShort, a.cacheWriteLong + b.cacheWriteLong)
  }

  function TotalsOf(m: Aggregate, g: Group): Totals {
    if g in m then m[g] else ZERO
  }

  function Accumulate(m: Aggregate, g: Group, cost: int, tokens: Tokens): Aggregate {
    var t := TotalsOf(m, g);
    m[g := Totals(t.count + 1, t.cost + cost, AddTokens(t.tokens, tokens))]
  }

  function OrEmpty(machine: Option<string>): string {
    if machine.Some? then machine.value else ""
  }

  function OrZero(cost: Option<int>): int {
    if cost.Some? then cost.value else 0
  }

  function GroupOf(k: Key, r: V1Row): Group {
    Group(r.ts.day, k.provider, OrEmpty(r.machine))
  }

  /** One row of the first table added to the totals. */
  function AddV1(v1: V1Table, m: Aggregate, k: Key): Aggregate {
    if k in v1 then Accumulate(m, GroupOf(k, v1[k]), OrZero(v1[k].cost), v1[k].tokens) else m
  }

  function V1Step(v1: V1Table): (Aggregate, Key) -> Aggregate {
    (m, k) => AddV1(v1, m, k)
  }

  function V1Total(v1: V1Table, keys: seq<Key>): Aggregate {
    Fold(V1Step(v1), map[], keys)
  }

  /** The saved cost of a marked row; `None` if what is saved is not an object, which raises. */
  function SavedCost(extra: Extra): Option<int> {
    if V1_NAMESPACE !in extra then Some(0)
    else if extra[V1_NAMESPACE].Object? then Some(OrZero(extra[V1_NAMESPACE].cost))
    else None
  }

  /** One row of the second table added to the totals: rows without a marker are passed over. */
  function AddV2(v2: V2Table, m: Option<Aggregate>, k: Key): Option<Aggregate> {
    if m.None? then None
    else if k !in v2 || !Marked(v2[k]) then m
    else
      var r := v2[k];
      var cost := SavedCost(r.extra.value);
      if cost.None? then None
      else Some(Accumulate(m.value, Group(r.ts.day, k.provider, OrEmpty(r.machine)), cost.value, r.tokens))
  }

  function V2Step(v2: V2Table): (Option<Aggregate>, Key) -> Option<Aggregate> {
    (m, k) => AddV2(v2, m, k)
  }

  function V2Total(v2: V2Table, keys: seq<Key>): Option<Aggregate> {
    Fold(V2Step(v2), Some(map[]), keys)
  }

  function V1Aggregate(v1: V1Table, less: KeyOrder): Aggregate
    requires TotalOrder(less)
  {
    V1Total(v1, Sorted(v1.Keys, less))
  }

  function V2Aggregate(v2: V2Table, less: KeyOrder): Option<Aggregate>
    requires TotalOrder(less)
  {
    V2Total(v2, Sorted(v2.Keys, less))
  }

  // ----- what the totals are -----

  /** The quantities of a group. */
  datatype Quantity = Count | Cost | Input | Output | CacheRead | CacheWriteShort | CacheWriteLong

  function TokensOf(t: Tokens, q: Quantity): int
    requires !q.Count? && !q.Cost?
  {
    match q
    case Input => t.input
    case Output => t.output
    case CacheRead => t.cacheRead
    case CacheWriteShort => t.cacheWriteShort
    case CacheWriteLong => t.cacheWriteLong
  }

  function TotalOf(t: Totals, q: Quantity): int {
    if q.Count? then t.count else if q.Cost? then t.cost else TokensOf(t.tokens, q)
  }

  /** What one row of the first table is worth; a missing cost is nothing. */
  function V1Worth(r: V1Row, q: Quantity): int {
    if q.Count? then 1
    else if q.Cost? then (if r.cost.Some? then r.cost.value else 0)
    else TokensOf(r.tokens, q)
  }

  /** What one copied row is worth: the cost is the one saved from the first table. */
  function V2Worth(r: V2Row, q: Quantity): int {
    if q.Count? then 1
    else if q.Cost? then
      (if r.extra.Some? && V1_NAMESPACE in r.extra.value && r.extra.value[V1_NAMESPACE].Object?
          && r.extra.value[V1_NAMESPACE].cost.Some?
       then r.extra.value[V1_NAMESPACE].cost.value else 0)
    else TokensOf(r.tokens, q)
  }

  /** What is saved in a marked row, if anything, is an object. */
  predicate Readable(r: V2Row) {
    Marked(r) && V1_NAMESPACE in r.extra.value ==> r.extra.value[V1_NAMESPACE].Object?
  }

  predicate AllReadable(v2: V2Table) {
    forall k :: k in v2 ==> Readable(v2[k])
  }

  predicate V1Belongs(v1: V1Table, k: Key, g: Group) {
    k in v1 && v1[k].ts.day == g.day && k.provider == g.provider
    && g.machine == if v1[k].machine.Some? then v1[k].machine.value else ""
  }

  predicate V2Belongs(v2: V2Table, k: Key, g: Group) {
    k in v2 && Marked(v2[k]) && v2[k].ts.day == g.day && k.provider == g.provider
    && g.machine == if v2[k].machine.Some? then v2[k].machine.value else ""
  }

  /** One quantity summed over the rows of a group among some keys. */
  function V1Sum(v1: V1Table, keys: seq<Key>, g: Group, q: Quantity): int {
    if keys == [] then 0
    else
      var k := keys[|keys| - 1];
      V1Sum(v1, keys[..|keys| - 1], g, q) + (if V1Belongs(v1, k, g) then V1Worth(v1[k], q) else 0)
  }

  function V2Sum(v2: V2Table, keys: seq<Key>, g: Group, q: Quantity): int {
    if keys == [] then 0
    else
      var k := keys[|keys| - 1];
      V2Sum(v2, keys[..|keys| - 1], g, q) + (if V2Belongs(v2, k, g) then V2Worth(v2[k], q) else 0)
  }

  lemma AccumulateMeaning(m: Aggregate, h: Group, cost: int, tokens: Tokens, g: Group, q: Quantity)
    ensures TotalOf(TotalsOf(Accumulate(m, h, cost, tokens), g), q) == TotalOf(TotalsOf(m, g), q) +
      (if g != h then 0 else if q.Count? then 1 else if q.Cost? then cost else TokensOf(tokens, q))
  {
  }

  /** The count, the cost and each of the five token columns of a group are the sums over its rows. */
  lemma {:induction false} V1TotalsAreSums(v1: V1Table, keys: seq<Key>, g: Group, q: Quantity)
    ensures TotalOf(TotalsOf(V1Total(v1, keys), g), q) == V1Sum(v1, keys, g, q)
    decreases |keys|
  {
    if keys != [] {
      var init, k := keys[..|keys| - 1], keys[|keys| - 1];
      V1TotalsAreSums(v1, init, g, q);
      if k in v1 {
        AccumulateMeaning(V1Total(v1, init), GroupOf(k, v1[k]), OrZero(v1[k].cost), v1[k].tokens, g, q);
      }
    }
  }

  /** And so are those of the second table over its marked rows, which can be read exactly when all of them can. */
  lemma {:induction false} V2TotalsAreSums(v2: V2Table, keys: seq<Key>, g: Group, q: Quantity)
    ensures V2Total(v2, keys).Some? <==> forall k :: k in keys && k in v2 ==> Readable(v2[k])
    ensures V2Total(v2, keys).Some? ==> TotalOf(TotalsOf(V2Total(v2, keys).value, g), q) == V2Sum(v2, keys, g, q)
    decreases |keys|
  {
    if keys != [] {
      var init, k := keys[..|keys| - 1], keys[|keys| - 1];
      V2TotalsAreSums(v2, init, g, q);
      assert forall x :: x in keys <==> x in init || x == k;
      if V2Total(v2, init).Some? && k in v2 && Marked(v2[k]) && Readable(v2[k]) {
        var r := v2[k];
        AccumulateMeaning(V2Total(v2, init).value, Group(r.ts.day, k.provider, OrEmpty(r.machine)),
          SavedCost(r.extra.value).value, r.tokens, g, q);
      }
    }
  }

  // ----- the report -----

  datatype Mismatch = Mismatch(group: Group, v1: Option<Totals>, v2: Option<Totals>)

  datatype Report = Report(groupsChecked: nat, mismatches: seq<Mismatch>)

  predicate KeyLess(a: Key, b: Key) {
    Ordering.Less(a.provider, b.provider)
    || (a.provider == b.provider && Ordering.Less(a.eventId, b.eventId))
  }

  lemma KeyOrderIsTotal()
    ensures TotalOrder(KeyLess)
  {
    forall a: Key ensures !KeyLess(a, a) {
      Ordering.LessIrreflexive(a.provider);
      Ordering.LessIrreflexive(a.eventId);
    }
    forall a: Key, b: Key ensures KeyLess(a, b) || a == b || KeyLess(b, a) {
      Ordering.LessTotal(a.provider, b.provider);
      Ordering.LessTotal(a.eventId, b.eventId);
    }
    forall a: Key, b: Key, c: Key | KeyLess(a, b) && KeyLess(b, c) ensures KeyLess(a, c) {
      if Ordering.Less(a.provider, b.provider) && Ordering.Less(b.provider, c.provider) {
        Ordering.LessTransitive(a.provider, b.provider, c.provider);
      } else if a.provider == b.provider == c.provider {
        Ordering.LessTransitive(a.eventId, b.eventId, c.eventId);
      }
    }
  }

  predicate GroupLess(a: Group, b: Group) {
    a.day < b.day
    || (a.day == b.day && KeyLess(KeepMax.Key(a.provider, a.machine), KeepMax.Key(b.provider, b.machine)))
  }

  lemma GroupOrderIsTotal()
    ensures TotalOrder(GroupLess)
  {
    KeyOrderIsTotal();
    forall a: Group, b: Group ensures GroupLess(a, b) || a == b || GroupLess(b, a) {
      var x, y := KeepMax.Key(a.provider, a.machine), KeepMax.Key(b.provider, b.machine);
      assert KeyLess(x, y) || x == y || KeyLess(y, x);
    }
    forall a: Group, b: Group, c: Group | GroupLess(a, b) && GroupLess(b, c) ensures GroupLess(a, c) {
    }
  }

  function Find(m: Aggregate, g: Group): Option<Totals> {
    if g in m then Some(m[g]) else None
  }

  function Mismatches(a: Aggregate, b: Aggregate, groups: seq<Group>): seq<Mismatch> {
    if groups == [] then []
    else
      var g := groups[|groups| - 1];
      Mismatches(a, b, groups[..|groups| - 1])
      + if Find(a, g) != Find(b, g) then [Mismatch(g, Find(a, g), Find(b, g))] else []
  }

  lemma {:induction false} MismatchesMeaning(a: Aggregate, b: Aggregate, groups: seq<Group>, m: Mismatch)
    ensures m in Mismatches(a, b, groups) <==>
      m.group in groups && m.v1 == Find(a, m.group) && m.v2 == Find(b, m.group) && m.v1 != m.v2
    decreases |groups|
  {
    if groups != [] {
      MismatchesMeaning(a, b, groups[..|groups| - 1], m);
      assert groups == groups[..|groups| - 1] + [groups[|groups| - 1]];
    }
  }

  /** The groups of either table, sorted. */
  function GroupsOf(a: Aggregate, b: Aggregate): (r: seq<Group>)
    ensures forall g :: g in r <==> g in a || g in b
    ensures |r| == |a.Keys + b.Keys|
  {
    GroupOrderIsTotal();
    Sorted(a.Keys + b.Keys, GroupLess)
  }

  function ReportOf(a: Aggregate, b: Aggregate): Report {
    Report(|a.Keys + b.Keys|, Mismatches(a, b, GroupsOf(a, b)))
  }

  lemma SameFinds(a: Aggregate, b: Aggregate)
    requires forall g :: Find(a, g) == Find(b, g)
    ensures a == b
  {
    assert forall g :: g in a <==> Find(a, g).Some?;
    assert forall g :: g in b <==> Find(b, g).Some?;
  }

  lemma DifferenceIsListed(a: Aggregate, b: Aggregate, g: Group)
    requires Find(a, g) != Find(b, g)
    ensures Mismatch(g, Find(a, g), Find(b, g)) in ReportOf(a, b).mismatches
  {
    MismatchesMeaning(a, b, GroupsOf(a, b), Mismatch(g, Find(a, g), Find(b, g)));
  }

  lemma NoMismatches(a: Aggregate, b: Aggregate)
    ensures ReportOf(a, b).mismatches == [] <==> a == b
  {
    var mismatches := ReportOf(a, b).mismatches;
    if mismatches == [] {
      forall g ensures Find(a, g) == Find(b, g) {
        if Find(a, g) != Find(b, g) {
          DifferenceIsListed(a, b, g);
        }
      }
      SameFinds(a, b);
    } else {
      MismatchesMeaning(a, b, GroupsOf(a, b), mismatches[0]);
    }
  }

  /** The report lists exactly the groups whose totals differ, so it is empty exactly when none do. */
  lemma ReportMeaning(a: Aggregate, b: Aggregate, m: Mismatch)
    ensures m in ReportOf(a, b).mismatches <==>
      m == Mismatch(m.group, Find(a, m.group), Find(b, m.group)) && m.v1 != m.v2
    ensures ReportOf(a, b).mismatches == [] <==> a == b
  {
    NoMismatches(a, b);
    MismatchesMeaning(a, b, GroupsOf(a, b), m);
    if Find(a, m.group) != Find(b, m.group) {
      DifferenceIsListed(a, b, m.group);
    }
  }

  // ----- what the comparison can tell -----

  /** Every marked row is the image of the first table's row with its key. */
  predicate Faithful(v1: V1Table, v2: V2Table) {
    forall k :: k in v2 && Marked(v2[k]) ==> k in v1 && v2[k] == Image(v1[k])
  }

  predicate Complete(v1: V1Table, v2: V2Table) {
    forall k :: k in v1 ==> k in v2 && v2[k] == Image(v1[k])
  }

  lemma ImageIsMarked(r: V1Row)
    ensures Marked(Image(r)) && SavedCost(Image(r).extra.value) == Some(OrZero(r.cost))
  {
  }

  /** The keys of the first table's rows in a group, among some keys. */
  function V1In(v1: V1Table, keys: seq<Key>, g: Group): set<Key> {
    set k | k in keys && k in v1 && GroupOf(k, v1[k]) == g
  }

  lemma V1InSnoc(v1: V1Table, init: seq<Key>, k: Key, g: Group)
    requires k in v1 && k !in init
    ensures |V1In(v1, init + [k], g)| == |V1In(v1, init, g)| + if GroupOf(k, v1[k]) == g then 1 else 0
  {
    assert V1In(v1, init + [k], g) == V1In(v1, init, g) + if GroupOf(k, v1[k]) == g then {k} else {};
  }

  /** A group's count is the number of its rows; a group without rows does not occur. */
  lemma {:induction false} CountV1(v1: V1Table, keys: seq<Key>, g: Group, less: KeyOrder)
    requires TotalOrder(less) && Elems(keys) <= v1.Keys && Ascending(keys, less)
    ensures TotalsOf(V1Total(v1, keys), g).count == |V1In(v1, keys, g)|
    ensures g in V1Total(v1, keys) <==> V1In(v1, keys, g) != {}
    decreases |keys|
  {
    if keys == [] {
      assert V1In(v1, keys, g) == {};
    } else {
      var init, k := keys[..|keys| - 1], keys[|keys| - 1];
      LastIsNew(keys, less);
      CountV1(v1, init, g, less);
      V1InSnoc(v1, init, k, g);
      assert V1In(v1, keys, g) != {} <==> |V1In(v1, keys, g)| > 0;
    }
  }

  lemma LastIsNew(keys: seq<Key>, less: KeyOrder)
    requires TotalOrder(less) && Ascending(keys, less) && keys != []
    ensures keys[|keys| - 1] !in keys[..|keys| - 1]
    ensures keys == keys[..|keys| - 1] + [keys[|keys| - 1]] && Ascending(keys[..|keys| - 1], less)
    ensures Elems(keys) == Elems(keys[..|keys| - 1]) + {keys[|keys| - 1]}
  {
  }

  lemma SmallerSet<T>(a: set<T>, b: set<T>, x: T)
    requires a <= b && x in b && x !in a
    ensures |a| < |b|
  {
    var rest := b - a;
    assert x in rest && b == a + rest;
  }

  function MarkedIn(v2: V2Table): Key -> bool {
    k => k in v2 && Marked(v2[k])
  }

  /** The keys of the marked rows among some keys, in the same order. */
  function MarkedKeys(v2: V2Table, keys: seq<Key>): seq<Key> {
    Kept(MarkedIn(v2), keys)
  }

  lemma AddImage(v1: V1Table, v2: V2Table, m: Aggregate, k: Key)
    requires Faithful(v1, v2)
    ensures AddV2(v2, Some(m), k) == Some(if k in v2 && Marked(v2[k]) then AddV1(v1, m, k) else m)
  {
    if k in v2 && Marked(v2[k]) {
      ImageIsMarked(v1[k]);
    }
  }

  /** In a faithful table the marked rows add up as their originals do. */
  lemma MarkedAddUpAsOriginals(v1: V1Table, v2: V2Table, keys: seq<Key>)
    requires Faithful(v1, v2)
    ensures V2Total(v2, keys) == Some(V1Total(v1, MarkedKeys(v2, keys)))
  {
    var skip, step, keep := V2Step(v2), V1Step(v1), MarkedIn(v2);
    forall m, k ensures skip(Some(m), k) == Some(if keep(k) then step(m, k) else m) {
      AddImage(v1, v2, m, k);
    }
    FoldKept(skip, step, keep, map[], keys);
  }

  /**
   A row of the first table that has no marked image, be it missing or held off by a native row
   with its key, always surfaces: its group counts fewer rows in the second table than in the first.
   */
  lemma MissingRowSurfaces(v1: V1Table, v2: V2Table, k: Key, less: KeyOrder)
    requires TotalOrder(less) && Faithful(v1, v2) && k in v1 && !(k in v2 && Marked(v2[k]))
    ensures var a, b, g := V1Aggregate(v1, less), V2Aggregate(v2, less), GroupOf(k, v1[k]);
      b.Some? && TotalsOf(b.value, g).count < TotalsOf(a, g).count
  {
    var g, keys := GroupOf(k, v1[k]), Sorted(v1.Keys, less);
    var marked := MarkedKeys(v2, Sorted(v2.Keys, less));
    MarkedAddUpAsOriginals(v1, v2, Sorted(v2.Keys, less));
    KeptAscends(MarkedIn(v2), Sorted(v2.Keys, less), less);
    CountV1(v1, keys, g, less);
    CountV1(v1, marked, g, less);
    SmallerSet(V1In(v1, marked, g), V1In(v1, keys, g), k);
  }

  lemma CompleteAggregatesAgree(v1: V1Table, v2: V2Table, less: KeyOrder)
    requires TotalOrder(less) && Faithful(v1, v2) && Complete(v1, v2)
    ensures V2Aggregate(v2, less) == Some(V1Aggregate(v1, less))
  {
    var keys := Sorted(v2.Keys, less);
    var marked := MarkedKeys(v2, keys);
    MarkedAddUpAsOriginals(v1, v2, keys);
    KeptAscends(MarkedIn(v2), keys, less);
    forall k | k in v1.Keys ensures k in marked {
      ImageIsMarked(v1[k]);
    }
    forall i | 0 <= i < |marked| ensures marked[i] in v1.Keys {
      assert marked[i] in marked;
    }
    ListingUnique(marked, Sorted(v1.Keys, less), v1.Keys, less);
  }

  function FullReport(v1: V1Table, v2: V2Table, less: KeyOrder): Option<Report>
    requires TotalOrder(less)
  {
    var b := V2Aggregate(v2, less);
    if b.None? then None else Some(ReportOf(V1Aggregate(v1, less), b.value))
  }

  /** The comparison finds nothing to report. */
  predicate Passes(v1: V1Table, v2: V2Table, less: KeyOrder)
    requires TotalOrder(less)
  {
    var report := FullReport(v1, v2, less);
    report.Some? && report.value.mismatches == []
  }

  lemma NothingReported(a: Aggregate, b: Option<Aggregate>)
    ensures b.Some? && ReportOf(a, b.value).mismatches == [] <==> b == Some(a)
  {
    if b.Some? {
      NoMismatches(a, b.value);
    }
  }

  lemma PassesMeaning(v1: V1Table, v2: V2Table, less: KeyOrder)
    requires TotalOrder(less)
    ensures Passes(v1, v2, less) <==> V2Aggregate(v2, less) == Some(V1Aggregate(v1, less))
  {
    NothingReported(V1Aggregate(v1, less), V2Aggregate(v2, less));
  }

  /** A group occurs only with rows. */
  predicate Inhabited(m: Aggregate) {
    forall g :: g in m ==> m[g].count > 0
  }

  lemma {:induction false} V1Inhabited(v1: V1Table, keys: seq<Key>)
    ensures Inhabited(V1Total(v1, keys)) && forall g :: TotalsOf(V1Total(v1, keys), g).count >= 0
    decreases |keys|
  {
    if keys != [] {
      V1Inhabited(v1, keys[..|keys| - 1]);
    }
  }

  lemma {:induction false} V2Inhabited(v2: V2Table, keys: seq<Key>)
    ensures V2Total(v2, keys).Some? ==>
      Inhabited(V2Total(v2, keys).value) && forall g :: TotalsOf(V2Total(v2, keys).value, g).count >= 0
    decreases |keys|
  {
    if keys != [] {
      V2Inhabited(v2, keys[..|keys| - 1]);
    }
  }

  /** Such totals are the same exactly when every quantity of every group is. */
  lemma SameTotalsIff(a: Aggregate, b: Aggregate)
    requires Inhabited(a) && Inhabited(b)
    ensures a == b <==> forall g, q :: TotalOf(TotalsOf(a, g), q) == TotalOf(TotalsOf(b, g), q)
  {
    if forall g, q :: TotalOf(TotalsOf(a, g), q) == TotalOf(TotalsOf(b, g), q) {
      forall g ensures Find(a, g) == Find(b, g) {
        SameQuantities(TotalsOf(a, g), TotalsOf(b, g));
        assert TotalOf(TotalsOf(a, g), Count) == TotalOf(TotalsOf(b, g), Count);
      }
      SameFinds(a, b);
    }
  }

  lemma SameQuantities(s: Totals, t: Totals)
    requires forall q :: TotalOf(s, q) == TotalOf(t, q)
    ensures s == t
  {
    assert TotalOf(s, Count) == TotalOf(t, Count) && TotalOf(s, Cost) == TotalOf(t, Cost);
    assert TotalOf(s, Input) == TotalOf(t, Input) && TotalOf(s, Output) == TotalOf(t, Output);
    assert TotalOf(s, CacheRead) == TotalOf(t, CacheRead);
    assert TotalOf(s, CacheWriteShort) == TotalOf(t, CacheWriteShort);
    assert TotalOf(s, CacheWriteLong) == TotalOf(t, CacheWriteLong);
  }

  /** Every quantity of every group is the same in both tables. */
  ghost predicate SumsAgree(v1: V1Table, v2: V2Table, less: KeyOrder)
    requires TotalOrder(less)
  {
    forall g, q :: V1Sum(v1, Sorted(v1.Keys, less), g, q) == V2Sum(v2, Sorted(v2.Keys, less), g, q)
  }

  /**
   Whatever the tables hold, the comparison finds nothing exactly when every marked row can be read and
   every group has the same count, cost and token sums in both.
   */
  lemma PassesIff(v1: V1Table, v2: V2Table, less: KeyOrder)
    requires TotalOrder(less)
    ensures V2Aggregate(v2, less).Some? <==> AllReadable(v2)
    ensures Passes(v1, v2, less) <==> AllReadable(v2) && SumsAgree(v1, v2, less)
  {
    var left, right := Sorted(v1.Keys, less), Sorted(v2.Keys, less);
    V2TotalsAreSums(v2, right, Group(0, "", ""), Count);
    assert forall k :: k in right <==> k in v2;
    PassesMeaning(v1, v2, less);
    if V2Total(v2, right).Some? {
      var a, b := V1Total(v1, left), V2Total(v2, right).value;
      V1Inhabited(v1, left);
      V2Inhabited(v2, right);
      SameTotalsIff(a, b);
      forall g, q
        ensures TotalOf(TotalsOf(a, g), q) == V1Sum(v1, left, g, q)
        ensures TotalOf(TotalsOf(b, g), q) == V2Sum(v2, right, g, q)
      {
        V1TotalsAreSums(v1, left, g, q);
        V2TotalsAreSums(v2, right, g, q);
      }
    }
  }

  /**
   Sound and complete: if every marked row is the image of its original, the comparison finds no
   mismatch exactly when every row of the first table has its marked image in the second.
   */
  lemma VerificationMeaning(v1: V1Table, v2: V2Table, less: KeyOrder)
    requires TotalOrder(less) && Faithful(v1, v2)
    ensures V2Aggregate(v2, less).Some?
    ensures Passes(v1, v2, less) <==> Complete(v1, v2)
  {
    MarkedAddUpAsOriginals(v1, v2, Sorted(v2.Keys, less));
    PassesMeaning(v1, v2, less);
    if Complete(v1, v2) {
      CompleteAggregatesAgree(v1, v2, less);
    } else {
      var k :| k in v1 && !(k in v2 && v2[k] == Image(v1[k]));
      MissingRowSurfaces(v1, v2, k, less);
    }
  }

  /** A full copy over a table without marked rows passes exactly when it found none of its keys taken. */
  lemma CopyThenVerify(v1: V1Table, v2: V2Table, less: KeyOrder)
    requires TotalOrder(less) && forall k :: k in v2 ==> !Marked(v2[k])
    ensures Passes(v1, Copied(v1, v2, v1.Keys), less) <==> v1.Keys !! v2.Keys
  {
    var after := Copied(v1, v2, v1.Keys);
    assert Faithful(v1, after);
    VerificationMeaning(v1, after, less);
    if k :| k in v1 && k in v2 {
      ImageIsMarked(v1[k]);
      assert after[k] == v2[k];
    } else {
      assert Complete(v1, after);
    }
  }

  lemma V2SumsOfAll(v2: V2Table, less: KeyOrder, g: Group, q: Quantity)
    requires TotalOrder(less)
    ensures V2Aggregate(v2, less).Some? <==> AllReadable(v2)
    ensures V2Aggregate(v2, less).Some? ==>
      TotalOf(TotalsOf(V2Aggregate(v2, less).value, g), q) == V2Sum(v2, Sorted(v2.Keys, less), g, q)
  {
    V2TotalsAreSums(v2, Sorted(v2.Keys, less), g, q);
    assert forall k :: k in Sorted(v2.Keys, less) <==> k in v2;
  }

  // ----- the scans -----

  method AggregateV1(v1: V1Table, chunkSize: nat, less: KeyOrder) returns (m: Aggregate)
    requires TotalOrder(less)
    ensures m == if chunkSize > 0 then V1Aggregate(v1, less) else map[]
    ensures chunkSize > 0 ==> forall g, q :: TotalOf(TotalsOf(m, g), q) == V1Sum(v1, Sorted(v1.Keys, less), g, q)
  {
    forall g, q ensures TotalOf(TotalsOf(V1Aggregate(v1, less), g), q) == V1Sum(v1, Sorted(v1.Keys, less), g, q) {
      V1TotalsAreSums(v1, Sorted(v1.Keys, less), g, q);
    }
    m := Scan(v1.Keys, chunkSize, less, V1Step(v1), map[]);
  }

  /** `None` when a marked row cannot be read. */
  method AggregateV2(v2: V2Table, chunkSize: nat, less: KeyOrder) returns (m: Option<Aggregate>)
    requires TotalOrder(less)
    ensures m == if chunkSize > 0 then V2Aggregate(v2, less) else Some(map[])
    ensures chunkSize > 0 ==> (m.Some? <==> AllReadable(v2))
    ensures chunkSize > 0 && m.Some? ==>
      forall g, q :: TotalOf(TotalsOf(m.value, g), q) == V2Sum(v2, Sorted(v2.Keys, less), g, q)
  {
    forall g, q
      ensures V2Aggregate(v2, less).Some? <==> AllReadable(v2)
      ensures V2Aggregate(v2, less).Some? ==>
        TotalOf(TotalsOf(V2Aggregate(v2, less).value, g), q) == V2Sum(v2, Sorted(v2.Keys, less), g, q)
    {
      V2SumsOfAll(v2, less, g, q);
    }
    V2SumsOfAll(v2, less, Group(0, "", ""), Count);
    m := Scan(v2.Keys, chunkSize, less, V2Step(v2), Some(map[]));
  }

  method Compare(a: Aggregate, b: Aggregate, groups: seq<Group>) returns (mismatches: seq<Mismatch>)
    ensures mismatches == Mismatches(a, b, groups)
  {
    mismatches := [];
    var i := 0;
    while i < |groups|
      invariant 0 <= i <= |groups| && mismatches == Mismatches(a, b, groups[..i])
    {
      assert groups[..i + 1][..i] == groups[..i];
      var g := groups[i];
      if Find(a, g) != Find(b, g) {
        mismatches := mismatches + [Mismatch(g, Find(a, g), Find(b, g))];
      }
      i := i + 1;
    }
    assert groups[..i] == groups;
  }

  /**
   Compares the two tables group by group. `None` when a marked row cannot be read. With a chunk
   size of zero nothing is read and the report is empty whatever the tables hold.
   */
  method VerifyBackfill(v1: V1Table, v2: V2Table, chunkSize: nat, less: KeyOrder) returns (report: Option<Report>)
    requires TotalOrder(less)
    ensures chunkSize > 0 ==> report.Some? == AllReadable(v2)
    ensures chunkSize > 0 ==>
      (report.Some? && report.value.mismatches == [] <==> AllReadable(v2) && SumsAgree(v1, v2, less))
    ensures chunkSize > 0 ==> report == FullReport(v1, v2, less)
    ensures chunkSize > 0 && Faithful(v1, v2) ==>
      report.Some? && (report.value.mismatches == [] <==> Complete(v1, v2))
    ensures chunkSize == 0 ==> report.Some? && report.value.mismatches == []
  {
    var a := AggregateV1(v1, chunkSize, less);
    var b := AggregateV2(v2, chunkSize, less);
    if chunkSize == 0 {
      NoMismatches(map[], map[]);
    } else {
      PassesIff(v1, v2, less);
      if Faithful(v1, v2) {
        VerificationMeaning(v1, v2, less);
      }
    }
    if b.None? {
      return None;
    }
    var mismatches := Compare(a, b.value, GroupsOf(a, b.value));
    report := Some(Report(|a.Keys + b.value.Keys|, mismatches));
  }
}
