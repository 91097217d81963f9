/**
 The agents of one session: who started whom, how deep, and how many attempts each made.
 */
module AgentHierarchy {
  import opened Wrappers
  import opened Sorting
  import Ordering

  type Parents = map<string, Option<string>>

  function ParentOf(parents: Parents, agent: string): Option<string> {
    if agent in parents then parents[agent] else None
  }

  /** The chain of ancestors from an agent up to one without a parent. */
  predicate RootPath(parents: Parents, agent: string, path: seq<string>) {
    && path != [] && path[0] == agent
    && (forall i :: 0 <= i < |path| - 1 ==> ParentOf(parents, path[i]) == Some(path[i + 1]))
    && ParentOf(parents, path[|path| - 1]) == None
  }

  lemma RootPathTail(parents: Parents, agent: string, path: seq<string>)
    requires RootPath(parents, agent, path) && |path| > 1
    ensures RootPath(parents, path[1], path[1..])
  {
    var rest := path[1..];
    assert forall i :: 0 <= i < |rest| ==> rest[i] == path[i + 1];
    forall i | 0 <= i < |rest| - 1 ensures ParentOf(parents, rest[i]) == Some(rest[i + 1]) {
      assert ParentOf(parents, path[i + 1]) == Some(path[i + 1 + 1]);
    }
  }

  lemma RootPathCons(parents: Parents, agent: string, parent: string, path: seq<string>)
    requires ParentOf(parents, agent) == Some(parent) && RootPath(parents, parent, path)
    ensures RootPath(parents, agent, [agent] + path)
  {
    var whole := [agent] + path;
    forall i | 0 <= i < |whole| - 1 ensures ParentOf(parents, whole[i]) == Some(whole[i + 1]) {
      assert i > 0 ==> whole[i] == path[i - 1] && whole[i + 1] == path[i - 1 + 1];
    }
  }

  lemma {:induction false} RootPathUnique(parents: Parents, agent: string, p: seq<string>, q: seq<string>)
    requires RootPath(parents, agent, p) && RootPath(parents, agent, q)
    ensures p == q
    decreases |p|
  {
    assert |p| > 1 ==> ParentOf(parents, p[0]) == Some(p[0 + 1]);
    assert |q| > 1 ==> ParentOf(parents, q[0]) == Some(q[0 + 1]);
    if |p| > 1 {
      RootPathTail(parents, agent, p);
      RootPathTail(parents, agent, q);
      RootPathUnique(parents, p[1], p[1..], q[1..]);
      assert p == [p[0]] + p[1..] && q == [q[0]] + q[1..];
    } else {
      assert p == q == [agent];
    }
  }

  lemma {:induction false} RootPathFrom(parents: Parents, agent: string, path: seq<string>, i: nat)
    requires RootPath(parents, agent, path) && i < |path|
    ensures RootPath(parents, path[i], path[i..])
    decreases i
  {
    if i > 0 {
      RootPathTail(parents, agent, path);
      RootPathFrom(parents, path[1], path[1..], i - 1);
      assert path[1..][i - 1..] == path[i..];
    } else {
      assert path[0..] == path;
    }
  }

  /** No agent occurs twice on a chain that ends. */
  lemma RootPathDistinct(parents: Parents, agent: string, path: seq<string>, i: nat, j: nat)
    requires RootPath(parents, agent, path) && i < j < |path|
    ensures path[i] != path[j]
  {
    RootPathFrom(parents, agent, path, i);
    RootPathFrom(parents, agent, path, j);
    if path[i] == path[j] {
      RootPathUnique(parents, path[i], path[i..], path[j..]);
    }
  }

  /** Every depth is the parent's plus one; an agent without a parent has depth zero. */
  lemma RootPathDepth(parents: Parents, agent: string, path: seq<string>)
    requires RootPath(parents, agent, path)
    ensures |path| == 1 <==> ParentOf(parents, agent).None?
    ensures |path| > 1 ==> RootPath(parents, ParentOf(parents, agent).value, path[1..]) && |path[1..]| == |path| - 1
  {
    if |path| > 1 {
      RootPathTail(parents, agent, path);
    }
  }

  /** What the walk has done after `depth` steps from `start`. */
  ghost predicate Walked(parents: Parents, start: string, depth: nat, agent: string, seen: set<string>,
                         first: string, visited: set<string>) {
    && visited <= parents.Keys && |visited| == depth
    && (depth == 0 ==> agent == start && seen == {} && visited == {})
    && (depth >= 1 ==> ParentOf(parents, start) == Some(first) && start in seen)
    && (depth == 1 ==> agent == first)
    && visited <= seen + {first} && (depth >= 1 ==> agent in seen + {first})
    && (depth >= 2 ==> ParentOf(parents, first).Some? && ParentOf(parents, first).value in seen)
    && (agent in visited ==> ParentOf(parents, agent).Some? && ParentOf(parents, agent).value in seen)
    && |seen| == depth
  }

  lemma WalkStep(parents: Parents, start: string, depth: nat, agent: string, seen: set<string>,
                 first: string, visited: set<string>)
    requires Walked(parents, start, depth, agent, seen, first, visited)
    requires ParentOf(parents, start).Some? ==> first == ParentOf(parents, start).value
    requires ParentOf(parents, agent).Some? && ParentOf(parents, agent).value !in seen
    ensures var next := ParentOf(parents, agent).value;
      depth < |parents.Keys| &&
      Walked(parents, start, depth + 1, next, seen + {if depth == 0 then agent else next}, first, visited + {agent})
  {
    GrowsBy(visited, agent, parents.Keys);
  }

  /** The walk follows a chain that ends. */
  ghost predicate Follows(parents: Parents, start: string, path: seq<string>, depth: nat, agent: string,
      seen: set<string>)
  {
    RootPath(parents, start, path) && depth < |path| && agent == path[depth]
    && forall x :: x in seen ==> x in path[..depth + 1]
  }

  lemma FollowStep(parents: Parents, start: string, path: seq<string>, depth: nat, agent: string, seen: set<string>)
    requires Follows(parents, start, path, depth, agent, seen)
    ensures ParentOf(parents, agent).None? <==> depth == |path| - 1
    ensures ParentOf(parents, agent).Some? ==>
      var next := ParentOf(parents, agent).value;
      && next !in seen
      && Follows(parents, start, path, depth + 1, next, seen + {if depth == 0 then agent else next})
  {
    if depth < |path| - 1 {
      var next := path[depth + 1];
      assert ParentOf(parents, path[depth]) == Some(next);
      forall i | 0 <= i < depth + 1 ensures path[i] != next {
        RootPathDistinct(parents, start, path, i, depth + 1);
      }
      assert path[..depth + 2] == path[..depth + 1] + [next];
      assert path[..depth + 2][depth] == agent;
    }
  }

  /** The walk up the parent chain; the cycle guard stops it within as many steps as there are agents. */
  method Depth(agentId: string, parents: Parents) returns (depth: nat)
    ensures depth <= |parents.Keys|
    ensures forall path :: RootPath(parents, agentId, path) ==> depth == |path| - 1
  {
    depth := 0;
    var seen: set<string> := {};
    var agent := agentId;
    var current := ParentOf(parents, agent);
    ghost var first, visited: set<string> := if current.Some? then current.value else agentId, {};
    ghost var rooted, path: seq<string> := exists path :: RootPath(parents, agentId, path), [];
    if rooted {
      path :| RootPath(parents, agentId, path);
    }
    while current.Some? && current.value !in seen
      invariant current == ParentOf(parents, agent)
      invariant Walked(parents, agentId, depth, agent, seen, first, visited)
      invariant rooted ==> Follows(parents, agentId, path, depth, agent, seen)
      decreases |parents.Keys| - depth
    {
      WalkStep(parents, agentId, depth, agent, seen, first, visited);
      if rooted {
        FollowStep(parents, agentId, path, depth, agent, seen);
      }
      visited := visited + {agent};
      seen := seen + {if depth == 0 then agent else current.value};
      depth := depth + 1;
      agent := current.value;
      current := ParentOf(parents, agent);
    }
    SubsetSize(visited, parents.Keys);
    if rooted {
      FollowStep(parents, agentId, path, depth, agent, seen);
      forall p | RootPath(parents, agentId, p) ensures depth == |p| - 1 {
        RootPathUnique(parents, agentId, p, path);
      }
    }
  }

  lemma GrowsBy(s: set<string>, x: string, whole: set<string>)
    requires x !in s && s <= whole && x in whole
    ensures |s + {x}| == |s| + 1 && |s| < |whole|
  {
    SubsetSize(s + {x}, whole);
  }

  lemma {:induction false} SubsetSize(a: set<string>, b: set<string>)
    requires a <= b
    ensures |a| <= |b|
  {
    var rest := b - a;
    assert b == a + rest;
  }

  // ----- building the hierarchy from a session's attempts -----

  /** One attempt of the session that names an agent. */
  datatype Attempt = Attempt(agent: string, span: Option<string>, parentSpan: Option<string>)

  predicate Truthy(o: Option<string>) {
    o.Some? && o.value != ""
  }

  function Agents(rows: seq<Attempt>): set<string> {
    set r | r in rows :: r.agent
  }

  function Count(rows: seq<Attempt>, agent: string): nat {
    if rows == [] then 0 else Count(rows[..|rows| - 1], agent) + if rows[|rows| - 1].agent == agent then 1 else 0
  }

  /** The agent of a span: the last attempt that carries it decides. */
  function SpanOwner(rows: seq<Attempt>, span: string): Option<string> {
    if rows == [] then None
    else
      var r := rows[|rows| - 1];
      if Truthy(r.span) && r.span.value == span then Some(r.agent) else SpanOwner(rows[..|rows| - 1], span)
  }

  /** The agent that owns the attempt's parent span, unless it is the attempt's own agent. */
  function Caller(all: seq<Attempt>, r: Attempt): Option<string> {
    if !Truthy(r.parentSpan) then None
    else
      var owner := SpanOwner(all, r.parentSpan.value);
      if owner == Some(r.agent) then None else owner
  }

  /** The first caller found for an agent. */
  function FirstCaller(all: seq<Attempt>, rows: seq<Attempt>, agent: string): Option<string> {
    if rows == [] then None
    else
      var found, r := FirstCaller(all, rows[..|rows| - 1], agent), rows[|rows| - 1];
      if found.Some? || r.agent != agent then found else Caller(all, r)
  }

  function ParentMap(rows: seq<Attempt>): Parents {
    map a | a in Agents(rows) :: FirstCaller(rows, rows, a)
  }

  lemma {:induction false} CountMeaning(rows: seq<Attempt>, agent: string)
    ensures Count(rows, agent) > 0 <==> agent in Agents(rows)
    decreases |rows|
  {
    if rows != [] {
      CountMeaning(rows[..|rows| - 1], agent);
      AgentsSnoc(rows);
    }
  }

  lemma AgentsSnoc(rows: seq<Attempt>)
    requires rows != []
    ensures Agents(rows) == Agents(rows[..|rows| - 1]) + {rows[|rows| - 1].agent}
  {
    assert rows == rows[..|rows| - 1] + [rows[|rows| - 1]];
  }

  lemma {:induction false} SpanOwnerIsAgent(rows: seq<Attempt>, span: string)
    ensures SpanOwner(rows, span).Some? ==> SpanOwner(rows, span).value in Agents(rows)
    decreases |rows|
  {
    if rows != [] {
      SpanOwnerIsAgent(rows[..|rows| - 1], span);
      AgentsSnoc(rows);
    }
  }

  lemma {:induction false} FirstCallerMeaning(all: seq<Attempt>, rows: seq<Attempt>, agent: string)
    ensures FirstCaller(all, rows, agent).Some? ==>
      FirstCaller(all, rows, agent).value in Agents(all) && FirstCaller(all, rows, agent).value != agent
    decreases |rows|
  {
    if rows != [] {
      FirstCallerMeaning(all, rows[..|rows| - 1], agent);
      if Truthy(rows[|rows| - 1].parentSpan) {
        SpanOwnerIsAgent(all, rows[|rows| - 1].parentSpan.value);
      }
    }
  }

  /** The attempt at position `i` is the last one that carries the span. */
  predicate LastCarrier(rows: seq<Attempt>, span: string, i: int) {
    && 0 <= i < |rows| && Truthy(rows[i].span) && rows[i].span.value == span
    && forall j :: i < j < |rows| && Truthy(rows[j].span) ==> rows[j].span.value != span
  }

  lemma {:induction false} SpanOwnerMeaning(rows: seq<Attempt>, span: string)
    ensures match SpanOwner(rows, span)
      case None => forall i :: 0 <= i < |rows| && Truthy(rows[i].span) ==> rows[i].span.value != span
      case Some(owner) => exists i :: LastCarrier(rows, span, i) && rows[i].agent == owner
    decreases |rows|
  {
    if rows != [] {
      var init, last := rows[..|rows| - 1], rows[|rows| - 1];
      SpanOwnerMeaning(init, span);
      assert forall i :: 0 <= i < |init| ==> init[i] == rows[i];
      if Truthy(last.span) && last.span.value == span {
        assert LastCarrier(rows, span, |rows| - 1);
      } else if SpanOwner(init, span).Some? {
        var i :| LastCarrier(init, span, i) && init[i].agent == SpanOwner(init, span).value;
        assert LastCarrier(rows, span, i);
      }
    }
  }

  /** The attempt at position `i` is the first of the agent's that has a caller. */
  predicate FirstCalled(all: seq<Attempt>, rows: seq<Attempt>, agent: string, i: int) {
    && 0 <= i < |rows| && rows[i].agent == agent && Caller(all, rows[i]).Some?
    && forall j :: 0 <= j < i && rows[j].agent == agent ==> Caller(all, rows[j]).None?
  }

  /** An agent's parent is the caller of the first of its attempts that has one. */
  lemma {:induction false} FirstCallerIsFirst(all: seq<Attempt>, rows: seq<Attempt>, agent: string)
    ensures match FirstCaller(all, rows, agent)
      case None => forall i :: 0 <= i < |rows| && rows[i].agent == agent ==> Caller(all, rows[i]).None?
      case Some(p) => exists i :: FirstCalled(all, rows, agent, i) && Caller(all, rows[i]) == Some(p)
    decreases |rows|
  {
    if rows != [] {
      var init, last := rows[..|rows| - 1], rows[|rows| - 1];
      FirstCallerIsFirst(all, init, agent);
      assert forall i :: 0 <= i < |init| ==> init[i] == rows[i];
      if FirstCaller(all, init, agent).Some? {
        var i :| FirstCalled(all, init, agent, i) && Caller(all, init[i]) == FirstCaller(all, init, agent);
        assert FirstCalled(all, rows, agent, i);
      } else if last.agent == agent && Caller(all, last).Some? {
        assert FirstCalled(all, rows, agent, |rows| - 1);
      }
    }
  }

  /** Every parent is itself an agent of the session, and never the agent itself. */
  lemma ParentMapIsClosed(rows: seq<Attempt>, agent: string)
    ensures ParentOf(ParentMap(rows), agent).Some? ==>
      ParentOf(ParentMap(rows), agent).value in Agents(rows) && ParentOf(ParentMap(rows), agent).value != agent
  {
    FirstCallerMeaning(rows, rows, agent);
  }

  function Get<V>(m: map<string, V>, k: string): Option<V> {
    if k in m then Some(m[k]) else None
  }

  method SpanOwners(rows: seq<Attempt>) returns (owners: map<string, string>)
    ensures forall s :: Get(owners, s) == SpanOwner(rows, s)
  {
    owners := map[];
    for i := 0 to |rows|
      invariant forall s :: Get(owners, s) == SpanOwner(rows[..i], s)
    {
      assert rows[..i + 1][..i] == rows[..i];
      if Truthy(rows[i].span) {
        owners := owners[rows[i].span.value := rows[i].agent];
      }
    }
    assert rows[..|rows|] == rows;
  }

  function CountOption(rows: seq<Attempt>, agent: string): Option<nat> {
    if Count(rows, agent) > 0 then Some(Count(rows, agent)) else None
  }

  /** Every member of the set, once each. */
  predicate ListsOnce(order: seq<string>, s: set<string>) {
    Lists(order, s) && forall i, j :: 0 <= i < j < |order| ==> order[i] != order[j]
  }

  lemma ListsMore(order: seq<string>, s: set<string>, x: string)
    requires ListsOnce(order, s)
    ensures if x in s then s + {x} == s else ListsOnce(order + [x], s + {x})
  {
    forall y | y in s + {x} ensures y in order + [x] {
      assert (order + [x])[|order|] == x;
    }
  }

  lemma RowNext(rows: seq<Attempt>, i: nat, a: string)
    requires i < |rows|
    ensures Count(rows[..i + 1], a) == Count(rows[..i], a) + if rows[i].agent == a then 1 else 0
    ensures FirstCaller(rows, rows[..i + 1], a) == (
      if FirstCaller(rows, rows[..i], a).Some? || rows[i].agent != a then FirstCaller(rows, rows[..i], a)
      else Caller(rows, rows[i]))
  {
    assert rows[..i + 1][..i] == rows[..i];
  }

  /** The attempt counts and the callers found, before agents without a caller are filled in. */
  method Tally(rows: seq<Attempt>) returns (order: seq<string>, counts: map<string, nat>, callers: map<string, string>)
    ensures forall a :: Get(counts, a) == CountOption(rows, a)
    ensures forall a :: Get(callers, a) == FirstCaller(rows, rows, a)
    ensures ListsOnce(order, counts.Keys)
  {
    var owners := SpanOwners(rows);
    order, counts, callers := [], map[], map[];
    for i := 0 to |rows|
      invariant forall a :: Get(counts, a) == CountOption(rows[..i], a)
      invariant forall a :: Get(callers, a) == FirstCaller(rows, rows[..i], a)
      invariant ListsOnce(order, counts.Keys)
    {
      ghost var countsBefore, callersBefore := counts, callers;
      var agent := rows[i].agent;
      ghost var seen := counts.Keys;
      ListsMore(order, seen, agent);
      if agent !in counts {
        order := order + [agent];
      }
      counts := counts[agent := (if agent in counts then counts[agent] else 0) + 1];
      assert counts.Keys == seen + {agent};
      var caller := if Truthy(rows[i].parentSpan) then Get(owners, rows[i].parentSpan.value) else None;
      if caller.Some? && caller.value != agent && agent !in callers {
        callers := callers[agent := caller.value];
      }
      forall a
        ensures Get(counts, a) == CountOption(rows[..i + 1], a)
        ensures Get(callers, a) == FirstCaller(rows, rows[..i + 1], a)
      {
        RowNext(rows, i, a);
        assert Get(countsBefore, a) == CountOption(rows[..i], a);
        assert Get(callersBefore, a) == FirstCaller(rows, rows[..i], a);
      }
    }
    assert rows[..|rows|] == rows;
  }

  method BuildParents(rows: seq<Attempt>) returns (order: seq<string>, counts: map<string, nat>, parents: Parents)
    ensures parents == ParentMap(rows)
    ensures forall a :: Get(counts, a) == CountOption(rows, a)
    ensures counts.Keys == Agents(rows) && ListsOnce(order, Agents(rows))
  {
    var callers;
    order, counts, callers := Tally(rows);
    forall a ensures a in counts <==> a in Agents(rows) {
      assert Get(counts, a) == CountOption(rows, a);
      CountMeaning(rows, a);
    }
    assert counts.Keys == Agents(rows);
    parents := map a | a in counts.Keys :: Get(callers, a);
  }

  // ----- the list of nodes -----

  datatype AgentNode = AgentNode(agentId: string, parent: Option<string>, depth: nat, attempts: nat)

  datatype SortKey = SortKey(depth: nat, agent: string)

  predicate SortKeyLess(a: SortKey, b: SortKey) {
    a.depth < b.depth || (a.depth == b.depth && Ordering.Less(a.agent, b.agent))
  }

  lemma SortKeyOrderIsTotal()
    ensures TotalOrder(SortKeyLess)
  {
    forall a: SortKey ensures !SortKeyLess(a, a) {
      Ordering.LessIrreflexive(a.agent);
    }
    forall a: SortKey, b: SortKey ensures SortKeyLess(a, b) || a == b || SortKeyLess(b, a) {
      Ordering.LessTotal(a.agent, b.agent);
    }
    forall a: SortKey, b: SortKey, c: SortKey | SortKeyLess(a, b) && SortKeyLess(b, c) ensures SortKeyLess(a, c) {
      if a.depth == b.depth == c.depth {
        Ordering.LessTransitive(a.agent, b.agent, c.agent);
      }
    }
  }

  /** The depth that the walk gives: that of the chain of parents if it ends, and never more than the agents. */
  ghost predicate IsDepth(parents: Parents, agent: string, depth: nat) {
    depth <= |parents.Keys| && forall path :: RootPath(parents, agent, path) ==> depth == |path| - 1
  }

  /** One node of the hierarchy says what the attempts say about its agent. */
  ghost predicate Describes(rows: seq<Attempt>, n: AgentNode) {
    && n.agentId in Agents(rows)
    && n.parent == ParentOf(ParentMap(rows), n.agentId)
    && n.attempts == Count(rows, n.agentId) > 0
    && IsDepth(ParentMap(rows), n.agentId, n.depth)
  }

  method Depths(order: seq<string>, parents: Parents) returns (depths: seq<nat>)
    ensures |depths| == |order|
    ensures forall i :: 0 <= i < |order| ==> IsDepth(parents, order[i], depths[i])
  {
    depths := [];
    for i := 0 to |order|
      invariant |depths| == i
      invariant forall j :: 0 <= j < i ==> IsDepth(parents, order[j], depths[j])
    {
      var depth := Depth(order[i], parents);
      depths := depths + [depth];
    }
  }

  function KeysOf(order: seq<string>, depths: seq<nat>): set<SortKey>
    requires |order| == |depths|
  {
    set i | 0 <= i < |order| :: SortKey(depths[i], order[i])
  }

  predicate Counted(rows: seq<Attempt>, counts: map<string, nat>) {
    forall a :: a in Agents(rows) ==> a in counts && counts[a] == Count(rows, a) > 0
  }

  function NodeOf(k: SortKey, parents: Parents, counts: map<string, nat>): AgentNode {
    AgentNode(k.agent, ParentOf(parents, k.agent), k.depth, if k.agent in counts then counts[k.agent] else 0)
  }

  lemma NodeDescribes(rows: seq<Attempt>, k: SortKey, counts: map<string, nat>, order: seq<string>, depths: seq<nat>)
    requires |order| == |depths| && Lists(order, Agents(rows)) && k in KeysOf(order, depths) && Counted(rows, counts)
    requires forall i :: 0 <= i < |order| ==> IsDepth(ParentMap(rows), order[i], depths[i])
    ensures Describes(rows, NodeOf(k, ParentMap(rows), counts))
  {
    var i :| 0 <= i < |order| && k == SortKey(depths[i], order[i]);
    assert order[i] in Agents(rows) && IsDepth(ParentMap(rows), order[i], depths[i]);
  }

  /** Keys of different positions belong to different agents. */
  lemma KeysApart(order: seq<string>, depths: seq<nat>, s: set<string>, a: SortKey, b: SortKey)
    requires |order| == |depths| && ListsOnce(order, s) && a in KeysOf(order, depths) && b in KeysOf(order, depths)
      && a != b
    ensures a.agent != b.agent
  {
    var i :| 0 <= i < |order| && a == SortKey(depths[i], order[i]);
    var j :| 0 <= j < |order| && b == SortKey(depths[j], order[j]);
    assert i < j || j < i;
  }

  /** One node per agent, and each says what the attempts say. */
  ghost predicate Hierarchy(rows: seq<Attempt>, nodes: seq<AgentNode>) {
    && (forall i :: 0 <= i < |nodes| ==> Describes(rows, nodes[i]))
    && (forall a :: a in Agents(rows) ==> exists i :: 0 <= i < |nodes| && nodes[i].agentId == a)
    && (forall i, j :: 0 <= i < j < |nodes| ==> nodes[i].agentId != nodes[j].agentId)
  }

  /** The nodes of a session, in any order of their sort keys. */
  method AgentsBy(rows: seq<Attempt>, less: (SortKey, SortKey) -> bool)
      returns (nodes: seq<AgentNode>, ghost keys: seq<SortKey>)
    requires TotalOrder(less)
    ensures Hierarchy(rows, nodes)
    ensures |keys| == |nodes| && forall i :: 0 <= i < |nodes| ==> keys[i] == SortKey(nodes[i].depth, nodes[i].agentId)
    ensures Ascending(keys, less)
  {
    var order, counts, parents := BuildParents(rows);
    var depths := Depths(order, parents);
    AllCounted(rows, counts);
    var sorted := Sorted(KeysOf(order, depths), less);
    nodes := NodesOf(sorted, parents, counts);
    keys := sorted;
    AscendingApart(sorted, less);
    NodesAreHierarchy(rows, counts, order, depths, sorted);
  }

  lemma AscendingApart(sorted: seq<SortKey>, less: (SortKey, SortKey) -> bool)
    requires TotalOrder(less) && Ascending(sorted, less)
    ensures forall i, j :: 0 <= i < j < |sorted| ==> sorted[i] != sorted[j]
  {
    forall i, j | 0 <= i < j < |sorted| ensures sorted[i] != sorted[j] {
      assert less(sorted[i], sorted[j]) && !less(sorted[i], sorted[i]);
    }
  }

  lemma AllCounted(rows: seq<Attempt>, counts: map<string, nat>)
    requires forall a :: Get(counts, a) == CountOption(rows, a)
    ensures Counted(rows, counts)
  {
    forall a | a in Agents(rows) ensures a in counts && counts[a] == Count(rows, a) > 0 {
      CountMeaning(rows, a);
      assert Get(counts, a) == CountOption(rows, a);
    }
  }

  lemma NodesAreHierarchy(rows: seq<Attempt>, counts: map<string, nat>, order: seq<string>, depths: seq<nat>,
      sorted: seq<SortKey>)
    requires |order| == |depths| && ListsOnce(order, Agents(rows)) && Counted(rows, counts)
    requires forall i :: 0 <= i < |order| ==> IsDepth(ParentMap(rows), order[i], depths[i])
    requires Lists(sorted, KeysOf(order, depths)) && forall i, j :: 0 <= i < j < |sorted| ==> sorted[i] != sorted[j]
    ensures Hierarchy(rows, NodesOf(sorted, ParentMap(rows), counts))
  {
    var nodes := NodesOf(sorted, ParentMap(rows), counts);
    forall i | 0 <= i < |nodes| ensures Describes(rows, nodes[i]) {
      NodeDescribes(rows, sorted[i], counts, order, depths);
    }
    forall a | a in Agents(rows) ensures exists i :: 0 <= i < |nodes| && nodes[i].agentId == a {
      var i := KeyOfAgent(rows, a, order, depths, sorted);
      assert nodes[i].agentId == a;
    }
    forall i, j | 0 <= i < j < |nodes| ensures nodes[i].agentId != nodes[j].agentId {
      KeysApart(order, depths, Agents(rows), sorted[i], sorted[j]);
    }
  }

  lemma KeyOfAgent(rows: seq<Attempt>, a: string, order: seq<string>, depths: seq<nat>, sorted: seq<SortKey>)
      returns (i: nat)
    requires |order| == |depths| && Lists(order, Agents(rows)) && a in Agents(rows)
    requires Lists(sorted, KeysOf(order, depths))
    ensures i < |sorted| && sorted[i].agent == a
  {
    var j :| 0 <= j < |order| && order[j] == a;
    assert SortKey(depths[j], a) in KeysOf(order, depths);
    i :| 0 <= i < |sorted| && sorted[i] == SortKey(depths[j], a);
  }

  /**
   The hierarchy of one session: one node per agent, ordered by depth and then by identifier. The
   nodes' attempt counts add up to the session's attempts.
   */
  method SessionAgents(rows: seq<Attempt>) returns (nodes: seq<AgentNode>, ghost keys: seq<SortKey>)
    ensures Hierarchy(rows, nodes)
    ensures |keys| == |nodes| && forall i :: 0 <= i < |nodes| ==> keys[i] == SortKey(nodes[i].depth, nodes[i].agentId)
    ensures Ascending(keys, SortKeyLess)
    ensures TotalAttempts(nodes) == |rows|
  {
    SortKeyOrderIsTotal();
    nodes, keys := AgentsBy(rows, SortKeyLess);
    CountsAddUp(rows, nodes);
  }

  function NodesOf(keys: seq<SortKey>, parents: Parents, counts: map<string, nat>): (r: seq<AgentNode>)
    ensures |r| == |keys|
    ensures forall i :: 0 <= i < |r| ==> r[i] == NodeOf(keys[i], parents, counts)
  {
    if keys == [] then []
    else NodesOf(keys[..|keys| - 1], parents, counts) + [NodeOf(keys[|keys| - 1], parents, counts)]
  }

  // ----- every attempt is counted once -----

  function SumCounts(rows: seq<Attempt>, agents: seq<string>): nat {
    if agents == [] then 0 else SumCounts(rows, agents[..|agents| - 1]) + Count(rows, agents[|agents| - 1])
  }

  function Occurs(agents: seq<string>, a: string): nat {
    if agents == [] then 0 else Occurs(agents[..|agents| - 1], a) + if agents[|agents| - 1] == a then 1 else 0
  }

  lemma {:induction false} OccursOnce(agents: seq<string>, a: string)
    requires forall i, j :: 0 <= i < j < |agents| ==> agents[i] != agents[j]
    ensures Occurs(agents, a) == if a in agents then 1 else 0
    decreases |agents|
  {
    if agents != [] {
      OccursOnce(agents[..|agents| - 1], a);
      assert agents == agents[..|agents| - 1] + [agents[|agents| - 1]];
    }
  }

  lemma {:induction false} SumCountsSnoc(init: seq<Attempt>, r: Attempt, agents: seq<string>)
    ensures SumCounts(init + [r], agents) == SumCounts(init, agents) + Occurs(agents, r.agent)
    decreases |agents|
  {
    if agents != [] {
      SumCountsSnoc(init, r, agents[..|agents| - 1]);
      assert (init + [r])[..|init|] == init;
    }
  }

  lemma {:induction false} SumCountsOfNone(agents: seq<string>)
    ensures SumCounts([], agents) == 0
    decreases |agents|
  {
    if agents != [] {
      SumCountsOfNone(agents[..|agents| - 1]);
    }
  }

  lemma {:induction false} AgentCountsAddUp(rows: seq<Attempt>, agents: seq<string>)
    requires forall i, j :: 0 <= i < j < |agents| ==> agents[i] != agents[j]
    requires forall r :: r in rows ==> r.agent in agents
    ensures SumCounts(rows, agents) == |rows|
    decreases |rows|
  {
    if rows == [] {
      SumCountsOfNone(agents);
    } else {
      var init, r := rows[..|rows| - 1], rows[|rows| - 1];
      assert rows == init + [r];
      AgentCountsAddUp(init, agents);
      SumCountsSnoc(init, r, agents);
      OccursOnce(agents, r.agent);
    }
  }

  /** The total that the dashboard shows over the list of nodes. */
  function TotalAttempts(nodes: seq<AgentNode>): nat {
    if nodes == [] then 0 else TotalAttempts(nodes[..|nodes| - 1]) + nodes[|nodes| - 1].attempts
  }

  function IdsOf(nodes: seq<AgentNode>): (r: seq<string>)
    ensures |r| == |nodes| && forall i :: 0 <= i < |r| ==> r[i] == nodes[i].agentId
  {
    if nodes == [] then [] else IdsOf(nodes[..|nodes| - 1]) + [nodes[|nodes| - 1].agentId]
  }

  lemma {:induction false} TotalIsSumOfCounts(rows: seq<Attempt>, nodes: seq<AgentNode>)
    requires forall i :: 0 <= i < |nodes| ==> nodes[i].attempts == Count(rows, nodes[i].agentId)
    ensures TotalAttempts(nodes) == SumCounts(rows, IdsOf(nodes))
    decreases |nodes|
  {
    if nodes != [] {
      TotalIsSumOfCounts(rows, nodes[..|nodes| - 1]);
      assert IdsOf(nodes)[..|nodes| - 1] == IdsOf(nodes[..|nodes| - 1]);
    }
  }

  /** Every attempt is counted at one node. */
  lemma CountsAddUp(rows: seq<Attempt>, nodes: seq<AgentNode>)
    requires Hierarchy(rows, nodes)
    ensures TotalAttempts(nodes) == |rows|
  {
    var ids := IdsOf(nodes);
    forall i | 0 <= i < |nodes| ensures nodes[i].attempts == Count(rows, nodes[i].agentId) {
      assert Describes(rows, nodes[i]);
    }
    forall r | r in rows ensures r.agent in ids {
      assert r.agent in Agents(rows);
      var i :| 0 <= i < |nodes| && nodes[i].agentId == r.agent;
      assert ids[i] == r.agent;
    }
    TotalIsSumOfCounts(rows, nodes);
    AgentCountsAddUp(rows, ids);
  }

  // ----- a session whose agents call each other -----

  /** Two agents, each called from a span of the other: neither has a chain of parents that ends. */
  lemma CyclicParents(s: string, t: string)
    requires s != "" && t != "" && s != t
    ensures var rows := [Attempt("a", Some(s), Some(t)), Attempt("b", Some(t), Some(s))];
      && ParentMap(rows) == map["a" := Some("b"), "b" := Some("a")]
      && forall path :: !RootPath(ParentMap(rows), "a", path) && !RootPath(ParentMap(rows), "b", path)
  {
    var first, second := Attempt("a", Some(s), Some(t)), Attempt("b", Some(t), Some(s));
    var rows := [first, second];
    assert rows[..1] == [first] && [first][..0] == [];
    assert SpanOwner([first], s) == Some("a") && SpanOwner([first], t) == SpanOwner([], t) == None;
    assert SpanOwner(rows, t) == Some("b") && SpanOwner(rows, s) == SpanOwner([first], s);
    assert FirstCaller(rows, [first], "a") == Caller(rows, first) == Some("b");
    assert FirstCaller(rows, [first], "b") == FirstCaller(rows, [], "b") == None;
    assert FirstCaller(rows, rows, "b") == Caller(rows, second) == Some("a");
    assert first in rows && second in rows;
    var parents := ParentMap(rows);
    assert Agents(rows) == {"a", "b"};
    forall path ensures !RootPath(parents, "a", path) && !RootPath(parents, "b", path) {
      NeverEnds(parents, "a", "b", path);
    }
  }

  lemma {:induction false} NeverEnds(parents: Parents, a: string, b: string, path: seq<string>)
    requires ParentOf(parents, a) == Some(b) && ParentOf(parents, b) == Some(a)
    ensures !RootPath(parents, a, path) && !RootPath(parents, b, path)
    decreases |path|
  {
    if path != [] {
      NeverEnds(parents, a, b, path[1..]);
      if RootPath(parents, a, path) {
        RootPathDepth(parents, a, path);
      }
      if RootPath(parents, b, path) {
        RootPathDepth(parents, b, path);
      }
    }
  }
}
