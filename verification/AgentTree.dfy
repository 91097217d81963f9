/**
 The dashboard's ordering of an agent list: depth first, each agent directly under its parent.

 The list may hold anything, cycles and repeated identifiers included. What is shown is exactly what
 can be reached from an agent without a parent. Where identifiers occur once and no cycle lies below a
 root, the rows are the plain preorder and the guard against cycles never acts.
 */
module AgentTree {
  import opened Wrappers

  datatype Node = Node(id: string, parent: Option<string>, depth: nat, attempts: nat)

  datatype TreeRow = TreeRow(id: string, depth: nat, attempts: nat)

  function RowOf(n: Node): TreeRow {
    TreeRow(n.id, n.depth, n.attempts)
  }

  /** The nodes with a given parent, in list order. */
  function Children(nodes: seq<Node>, parent: Option<string>): (r: seq<Node>)
    ensures |r| <= |nodes|
    ensures forall n :: n in r <==> n in nodes && n.parent == parent
  {
    if nodes == [] then []
    else
      var init, n := Children(nodes[..|nodes| - 1], parent), nodes[|nodes| - 1];
      if n.parent == parent then init + [n] else init
  }

  type ByParent = map<Option<string>, seq<Node>>

  function ChildrenIn(m: ByParent, parent: Option<string>): seq<Node> {
    if parent in m then m[parent] else []
  }

  method GroupByParent(nodes: seq<Node>) returns (m: ByParent)
    ensures forall p :: ChildrenIn(m, p) == Children(nodes, p)
  {
    m := map[];
    for i := 0 to |nodes|
      invariant forall p :: ChildrenIn(m, p) == Children(nodes[..i], p)
    {
      assert nodes[..i + 1][..i] == nodes[..i];
      var node := nodes[i];
      m := m[node.parent := ChildrenIn(m, node.parent) + [node]];
    }
    assert nodes[..|nodes|] == nodes;
  }

  function Ids(nodes: seq<Node>): set<string> {
    set n | n in nodes :: n.id
  }

  // ----- reachability -----

  /** A path of nodes, each the child of the one before, that starts below `parent`. */
  predicate PathFrom(nodes: seq<Node>, parent: Option<string>, path: seq<Node>) {
    && path != [] && path[0].parent == parent
    && (forall i :: 0 <= i < |path| ==> path[i] in nodes)
    && (forall i :: 0 < i < |path| ==> path[i].parent == Some(path[i - 1].id))
  }

  ghost predicate Reach(nodes: seq<Node>, parent: Option<string>, id: string) {
    exists path: seq<Node> :: PathFrom(nodes, parent, path) && path[|path| - 1].id == id
  }

  lemma PathCons(nodes: seq<Node>, n: Node, path: seq<Node>)
    requires n in nodes && PathFrom(nodes, Some(n.id), path)
    ensures PathFrom(nodes, n.parent, [n] + path)
  {
    var whole := [n] + path;
    forall i | 0 < i < |whole| ensures whole[i].parent == Some(whole[i - 1].id) {
      assert whole[i] == path[i - 1];
      assert i > 1 ==> whole[i - 1] == path[i - 2] && path[i - 1].parent == Some(path[i - 1 - 1].id);
    }
  }

  lemma PathSnoc(nodes: seq<Node>, parent: Option<string>, path: seq<Node>, n: Node)
    requires PathFrom(nodes, parent, path) && n in nodes && n.parent == Some(path[|path| - 1].id)
    ensures PathFrom(nodes, parent, path + [n])
  {
    var whole := path + [n];
    forall i | 0 < i < |whole| ensures whole[i].parent == Some(whole[i - 1].id) {
      assert i < |path| ==> whole[i] == path[i] && whole[i - 1] == path[i - 1];
    }
  }

  lemma ReachChild(nodes: seq<Node>, n: Node)
    requires n in nodes
    ensures Reach(nodes, n.parent, n.id)
  {
    assert PathFrom(nodes, n.parent, [n]);
  }

  lemma ReachBelow(nodes: seq<Node>, n: Node, id: string)
    requires n in nodes && Reach(nodes, Some(n.id), id)
    ensures Reach(nodes, n.parent, id)
  {
    var path: seq<Node> :| PathFrom(nodes, Some(n.id), path) && path[|path| - 1].id == id;
    PathCons(nodes, n, path);
    assert ([n] + path)[|path|].id == id;
  }

  /** The children of every one of these are in the set. */
  predicate Closed(nodes: seq<Node>, parents: set<string>, seen: set<string>) {
    forall n :: n in nodes && n.parent.Some? && n.parent.value in parents ==> n.id in seen
  }

  lemma {:induction false} ClosedHoldsReach(nodes: seq<Node>, seen: set<string>, path: seq<Node>)
    requires Closed(nodes, seen, seen) && (forall n :: n in nodes && n.parent.None? ==> n.id in seen)
    requires PathFrom(nodes, None, path)
    ensures path[|path| - 1].id in seen
    decreases |path|
  {
    if |path| > 1 {
      var init := path[..|path| - 1];
      assert forall i :: 0 <= i < |init| ==> init[i] == path[i];
      ClosedHoldsReach(nodes, seen, init);
      assert path[|path| - 1].parent == Some(path[|path| - 1 - 1].id);
    }
  }

  // ----- what every visit keeps and adds -----

  function RowIds(rows: seq<TreeRow>): set<string> {
    set r | r in rows :: r.id
  }

  /** The row shows a node of the list whose parent, if any, is shown further up. */
  predicate Placed(nodes: seq<Node>, rows: seq<TreeRow>, i: nat, n: Node)
    requires i < |rows|
  {
    n in nodes && rows[i] == RowOf(n) && (n.parent.Some? ==> n.parent.value in RowIds(rows[..i]))
  }

  predicate PlacedAt(nodes: seq<Node>, rows: seq<TreeRow>, i: nat)
    requires i < |rows|
  {
    exists n :: n in nodes && Placed(nodes, rows, i, n)
  }

  ghost predicate Shown(nodes: seq<Node>, seen: set<string>, rows: seq<TreeRow>) {
    && RowIds(rows) == seen
    && (forall i, j :: 0 <= i < j < |rows| ==> rows[i].id != rows[j].id)
    && (forall i :: 0 <= i < |rows| ==> PlacedAt(nodes, rows, i))
  }

  lemma ShowNode(nodes: seq<Node>, seen: set<string>, rows: seq<TreeRow>, n: Node)
    requires Shown(nodes, seen, rows) && n in nodes && n.id !in seen
    requires n.parent.Some? ==> n.parent.value in seen
    ensures Shown(nodes, seen + {n.id}, rows + [RowOf(n)])
  {
    var after := rows + [RowOf(n)];
    assert RowIds(after) == RowIds(rows) + {n.id};
    forall i | 0 <= i < |after| ensures PlacedAt(nodes, after, i) {
      assert after[..i] == rows[..i];
      if i < |rows| {
        assert PlacedAt(nodes, rows, i);
        var m :| m in nodes && Placed(nodes, rows, i, m);
        assert Placed(nodes, after, i, m);
      } else {
        assert rows[..i] == rows;
        assert Placed(nodes, after, i, n);
      }
    }
    forall i | 0 <= i < |rows| ensures rows[i].id != n.id {
      assert rows[i] in rows && rows[i].id in RowIds(rows);
    }
  }

  /** Everything added lies below `parent`, and whatever has been added has its children as well. */
  ghost predicate Added(nodes: seq<Node>, parent: Option<string>, before: set<string>, after: set<string>) {
    before <= after && Closed(nodes, after - before, after)
    && forall x :: x in after - before ==> Reach(nodes, parent, x)
  }

  /** One child and its visit, after the visits of the children before it. */
  lemma AddedNext(nodes: seq<Node>, n: Node, before: set<string>, mid: set<string>, after: set<string>)
    requires n in nodes && Added(nodes, n.parent, before, mid)
    requires Added(nodes, Some(n.id), mid + {n.id}, after) && Closed(nodes, {n.id}, after)
    ensures Added(nodes, n.parent, before, after)
  {
    forall x | x in after - before ensures Reach(nodes, n.parent, x) {
      if x == n.id {
        ReachChild(nodes, n);
      } else if x !in mid {
        ReachBelow(nodes, n, x);
      }
    }
  }

  // ----- the order below the roots -----

  type Levels = string -> int

  /** Below a root, or itself the place of a root. */
  predicate InTree(level: Levels, parent: Option<string>) {
    parent.None? || level(parent.value) >= 0
  }

  /**
   Identifiers occur once, and levels grow from parent to child below every root, so there is no cycle
   there. Nodes that hang below no root can have any parents: a negative level marks them.
   */
  predicate TreeBelowRoots(nodes: seq<Node>, level: Levels, top: nat) {
    && (forall i, j :: 0 <= i < j < |nodes| ==> nodes[i].id != nodes[j].id)
    && (forall n :: n in nodes && InTree(level, n.parent) ==>
          0 <= level(n.id) <= top && (n.parent.Some? ==> level(n.parent.value) < level(n.id)))
  }

  /** Every node hangs below a root. */
  predicate Forest(nodes: seq<Node>, level: Levels, top: nat) {
    TreeBelowRoots(nodes, level, top) && ParentsListed(nodes) && forall n :: n in nodes ==> InTree(level, n.parent)
  }

  /** Every parent named in the list is itself in the list. */
  predicate ParentsListed(nodes: seq<Node>) {
    forall n :: n in nodes && n.parent.Some? ==> exists p :: p in nodes && p.id == n.parent.value
  }

  function Height(level: Levels, top: nat, parent: Option<string>): int {
    if parent.None? then top + 1 else top - level(parent.value)
  }

  /** The plain preorder: every node directly followed by the preorder of its children. */
  function Preorder(nodes: seq<Node>, level: Levels, top: nat, parent: Option<string>): seq<TreeRow>
    requires TreeBelowRoots(nodes, level, top) && InTree(level, parent)
    decreases Height(level, top, parent), |nodes| + 1
  {
    PreorderOf(nodes, level, top, parent, Children(nodes, parent))
  }

  function PreorderOf(nodes: seq<Node>, level: Levels, top: nat, parent: Option<string>, kids: seq<Node>): seq<TreeRow>
    requires TreeBelowRoots(nodes, level, top) && InTree(level, parent)
    requires |kids| <= |nodes| && forall n :: n in kids ==> n in nodes && n.parent == parent
    decreases Height(level, top, parent), |kids|
  {
    if kids == [] then []
    else
      var n := kids[|kids| - 1];
      PreorderOf(nodes, level, top, parent, kids[..|kids| - 1]) + [RowOf(n)] + Preorder(nodes, level, top, Some(n.id))
  }

  /** Below a node everything is on a higher level. */
  lemma {:induction false} LevelsRise(nodes: seq<Node>, level: Levels, top: nat, parent: Option<string>,
      path: seq<Node>)
    requires TreeBelowRoots(nodes, level, top) && InTree(level, parent) && PathFrom(nodes, parent, path) && parent.Some?
    ensures 0 <= level(parent.value) < level(path[|path| - 1].id)
    decreases |path|
  {
    assert path[|path| - 1] in nodes;
    if |path| > 1 {
      var init := path[..|path| - 1];
      assert forall i :: 0 <= i < |init| ==> init[i] == path[i];
      LevelsRise(nodes, level, top, parent, init);
      assert path[|path| - 1].parent == Some(path[|path| - 1 - 1].id);
    }
  }

  lemma SameIdSameNode(nodes: seq<Node>, level: Levels, top: nat, a: Node, b: Node)
    requires TreeBelowRoots(nodes, level, top) && a in nodes && b in nodes && a.id == b.id
    ensures a == b
  {
    var i :| 0 <= i < |nodes| && nodes[i] == a;
    var j :| 0 <= j < |nodes| && nodes[j] == b;
    assert i <= j && j <= i;
  }

  /** Two paths from one parent to one node start with the same child. */
  lemma {:induction false} PathsAgree(nodes: seq<Node>, level: Levels, top: nat, parent: Option<string>, p: seq<Node>,
      q: seq<Node>)
    requires TreeBelowRoots(nodes, level, top) && InTree(level, parent) && PathFrom(nodes, parent, p)
      && PathFrom(nodes, parent, q)
    requires p[|p| - 1].id == q[|q| - 1].id
    ensures p[0] == q[0]
    decreases |p|
  {
    SameIdSameNode(nodes, level, top, p[|p| - 1], q[|q| - 1]);
    assert |p| > 1 ==> p[|p| - 1].parent == Some(p[|p| - 1 - 1].id);
    assert |q| > 1 ==> q[|q| - 1].parent == Some(q[|q| - 1 - 1].id);
    if |p| > 1 {
      InitOfPath(nodes, parent, p);
    }
    if |q| > 1 {
      InitOfPath(nodes, parent, q);
    }
    if |p| > 1 && |q| > 1 {
      PathsAgree(nodes, level, top, parent, p[..|p| - 1], q[..|q| - 1]);
    } else if |p| > 1 {
      LevelsRise(nodes, level, top, parent, p[..|p| - 1]);
    } else if |q| > 1 {
      LevelsRise(nodes, level, top, parent, q[..|q| - 1]);
    }
  }

  lemma InitOfPath(nodes: seq<Node>, parent: Option<string>, path: seq<Node>)
    requires PathFrom(nodes, parent, path) && |path| > 1
    ensures PathFrom(nodes, parent, path[..|path| - 1])
  {
    var init := path[..|path| - 1];
    assert forall i :: 0 <= i < |init| ==> init[i] == path[i];
  }

  /** Below `parent`, but not below the child `n` of it nor that child itself. */
  ghost predicate Elsewhere(nodes: seq<Node>, n: Node, x: string) {
    x != n.id && !Reach(nodes, Some(n.id), x)
  }

  /** The subtrees of two siblings are disjoint. */
  lemma SiblingsApart(nodes: seq<Node>, level: Levels, top: nat, a: Node, b: Node, x: string)
    requires TreeBelowRoots(nodes, level, top) && InTree(level, a.parent) && a in nodes && b in nodes
      && a.parent == b.parent && a != b
    requires !Elsewhere(nodes, a, x)
    ensures Elsewhere(nodes, b, x)
  {
    var p := PathThrough(nodes, a, x);
    if !Elsewhere(nodes, b, x) {
      var q := PathThrough(nodes, b, x);
      PathsAgree(nodes, level, top, a.parent, p, q);
    }
  }

  lemma PathThrough(nodes: seq<Node>, n: Node, x: string) returns (path: seq<Node>)
    requires n in nodes && !Elsewhere(nodes, n, x)
    ensures PathFrom(nodes, n.parent, path) && path[0] == n && path[|path| - 1].id == x
  {
    if x == n.id {
      path := [n];
    } else {
      var rest: seq<Node> :| PathFrom(nodes, Some(n.id), rest) && rest[|rest| - 1].id == x;
      PathCons(nodes, n, rest);
      path := [n] + rest;
    }
  }

  /** In a forest every node is below a root. */
  lemma {:induction false} AllReachable(nodes: seq<Node>, level: Levels, top: nat, n: Node) returns (path: seq<Node>)
    requires Forest(nodes, level, top) && n in nodes
    ensures PathFrom(nodes, None, path) && path[|path| - 1] == n
    decreases level(n.id)
  {
    if n.parent.None? {
      path := [n];
    } else {
      var p :| p in nodes && p.id == n.parent.value;
      var init := AllReachable(nodes, level, top, p);
      PathSnoc(nodes, None, init, n);
      path := init + [n];
    }
  }

  /** Nothing below `parent` has been seen. */
  ghost predicate Fresh(nodes: seq<Node>, parent: Option<string>, seen: set<string>) {
    forall x :: Reach(nodes, parent, x) ==> x !in seen
  }

  /** Among the children of `parent` from position `k` on, nothing has been seen at or below any. */
  ghost predicate FreshFrom(nodes: seq<Node>, kids: seq<Node>, k: nat, seen: set<string>) {
    forall i, x :: k <= i < |kids| && !Elsewhere(nodes, kids[i], x) ==> x !in seen
  }

  lemma FreshChildren(nodes: seq<Node>, parent: Option<string>, seen: set<string>)
    requires Fresh(nodes, parent, seen)
    ensures FreshFrom(nodes, Children(nodes, parent), 0, seen)
  {
    var kids := Children(nodes, parent);
    forall i, x | 0 <= i < |kids| && !Elsewhere(nodes, kids[i], x) ensures x !in seen {
      assert kids[i] in kids;
      var path := PathThrough(nodes, kids[i], x);
      assert Reach(nodes, parent, x);
    }
  }

  lemma FreshChild(nodes: seq<Node>, level: Levels, top: nat, kids: seq<Node>, k: nat, seen: set<string>)
    requires TreeBelowRoots(nodes, level, top) && FreshFrom(nodes, kids, k, seen) && k < |kids| && kids[k] in nodes
    requires InTree(level, kids[k].parent)
    ensures kids[k].id !in seen && Fresh(nodes, Some(kids[k].id), seen + {kids[k].id})
  {
    var n := kids[k];
    assert !Elsewhere(nodes, n, n.id);
    forall x | Reach(nodes, Some(n.id), x) ensures x !in seen + {n.id} {
      assert !Elsewhere(nodes, n, x);
      var path: seq<Node> :| PathFrom(nodes, Some(n.id), path) && path[|path| - 1].id == x;
      LevelsRise(nodes, level, top, Some(n.id), path);
    }
  }

  /** Having visited one child leaves its later siblings as fresh as they were. */
  lemma FreshSiblings(nodes: seq<Node>, level: Levels, top: nat, parent: Option<string>, k: nat, mid: set<string>,
      after: set<string>)
    requires TreeBelowRoots(nodes, level, top) && InTree(level, parent) && k < |Children(nodes, parent)|
    requires FreshFrom(nodes, Children(nodes, parent), k, mid)
    requires Added(nodes, Some(Children(nodes, parent)[k].id), mid + {Children(nodes, parent)[k].id}, after)
    ensures FreshFrom(nodes, Children(nodes, parent), k + 1, after)
  {
    var kids := Children(nodes, parent);
    var n := kids[k];
    assert n in kids;
    forall i, x | k + 1 <= i < |kids| && !Elsewhere(nodes, kids[i], x) ensures x !in after {
      assert kids[i] in kids;
      ChildrenDistinct(nodes, parent, k, i);
      SiblingsApart(nodes, level, top, kids[i], n, x);
    }
  }

  lemma {:induction false} ChildrenDistinct(nodes: seq<Node>, parent: Option<string>, i: nat, j: nat)
    requires forall a, b :: 0 <= a < b < |nodes| ==> nodes[a].id != nodes[b].id
    requires i < j < |Children(nodes, parent)|
    ensures Children(nodes, parent)[i] != Children(nodes, parent)[j]
    decreases |nodes|
  {
    var init, n := nodes[..|nodes| - 1], nodes[|nodes| - 1];
    var kids := Children(init, parent);
    assert forall a :: 0 <= a < |init| ==> init[a] == nodes[a];
    if j < |kids| {
      ChildrenDistinct(init, parent, i, j);
    } else {
      assert kids[i] in kids;
    }
  }

  ghost predicate Grouped(nodes: seq<Node>, byParent: ByParent) {
    forall p :: ChildrenIn(byParent, p) == Children(nodes, p)
  }

  /** Shows one node and what lies below it. */
  method Show(nodes: seq<Node>, byParent: ByParent, node: Node, seen0: set<string>, rows0: seq<TreeRow>,
              ghost level: Levels, ghost top: nat) returns (seen: set<string>, rows: seq<TreeRow>)
    requires Grouped(nodes, byParent) && Shown(nodes, seen0, rows0)
    requires node in nodes && node.id !in seen0 && (node.parent.Some? ==> node.parent.value in seen0)
    ensures Shown(nodes, seen, rows) && Visited(nodes, Some(node.id), seen0 + {node.id}, seen)
    ensures InPreorder(nodes, level, top, Some(node.id), seen0 + {node.id}, rows0 + [RowOf(node)], rows)
    decreases Ids(nodes) - seen0, 0
  {
    ShowNode(nodes, seen0, rows0, node);
    assert node.id in Ids(nodes);
    seen, rows := Visit(nodes, byParent, Some(node.id), seen0 + {node.id}, rows0 + [RowOf(node)], level, top);
  }

  /** One turn of the loop over the children: a child that has been shown already is passed over. */
  method VisitChild(nodes: seq<Node>, byParent: ByParent, parent: Option<string>, k: nat,
      mid: set<string>, rowsMid: seq<TreeRow>, ghost level: Levels, ghost top: nat, ghost plain: bool,
      ghost seen0: set<string>, ghost rows0: seq<TreeRow>)
      returns (seen: set<string>, rows: seq<TreeRow>)
    requires Grouped(nodes, byParent) && Shown(nodes, mid, rowsMid) && k < |Children(nodes, parent)|
    requires (parent.Some? ==> parent.value in mid) && Visiting(nodes, parent, k, seen0, mid)
    requires plain ==>
      && TreeBelowRoots(nodes, level, top) && InTree(level, parent)
      && InOrder(nodes, level, top, parent, k, mid, rows0, rowsMid)
    ensures Shown(nodes, seen, rows) && mid <= seen && Visiting(nodes, parent, k + 1, seen0, seen)
    ensures plain ==> InOrder(nodes, level, top, parent, k + 1, seen, rows0, rows)
    decreases Ids(nodes) - mid, 1
  {
    assert ChildrenIn(byParent, parent) == Children(nodes, parent);
    var node := ChildrenIn(byParent, parent)[k];
    assert node in Children(nodes, parent);
    if plain {
      FreshChild(nodes, level, top, Children(nodes, parent), k, mid);
    }
    if node.id in mid {
      return mid, rowsMid;
    }
    seen, rows := Show(nodes, byParent, node, mid, rowsMid, level, top);
    VisitingNext(nodes, parent, k, seen0, mid, seen);
    if plain {
      InOrderNext(nodes, level, top, parent, k, mid, seen, rows0, rowsMid, rows);
    }
  }

  /** Shows what lies below `parent` and has not been shown yet. Below the roots this is the plain preorder. */
  method Visit(nodes: seq<Node>, byParent: ByParent, parent: Option<string>, seen0: set<string>, rows0: seq<TreeRow>,
               ghost level: Levels, ghost top: nat) returns (seen: set<string>, rows: seq<TreeRow>)
    requires Grouped(nodes, byParent) && Shown(nodes, seen0, rows0) && (parent.Some? ==> parent.value in seen0)
    ensures Shown(nodes, seen, rows) && Visited(nodes, parent, seen0, seen)
    ensures InPreorder(nodes, level, top, parent, seen0, rows0, rows)
    decreases Ids(nodes) - seen0, 2
  {
    assert ChildrenIn(byParent, parent) == Children(nodes, parent);
    var count := |ChildrenIn(byParent, parent)|;
    ghost var plain := TreeBelowRoots(nodes, level, top) && InTree(level, parent) && Fresh(nodes, parent, seen0);
    seen, rows := seen0, rows0;
    VisitingStart(nodes, parent, seen0);
    if plain {
      InOrderStart(nodes, level, top, parent, seen0, rows0);
    }
    for k := 0 to count
      invariant Shown(nodes, seen, rows) && seen0 <= seen && Visiting(nodes, parent, k, seen0, seen)
      invariant plain ==> InOrder(nodes, level, top, parent, k, seen, rows0, rows)
    {
      seen, rows := VisitChild(nodes, byParent, parent, k, seen, rows, level, top, plain, seen0, rows0);
    }
    AllVisited(nodes, parent, seen0, seen);
    if plain {
      InOrderEnd(nodes, level, top, parent, seen, rows0, rows);
    }
  }

  /** The first `k` children of `parent` have been shown, and with them what lies below. */
  ghost predicate Visiting(nodes: seq<Node>, parent: Option<string>, k: nat, before: set<string>, after: set<string>)
    requires k <= |Children(nodes, parent)|
  {
    Added(nodes, parent, before, after) && forall i :: 0 <= i < k ==> Children(nodes, parent)[i].id in after
  }

  lemma VisitingNext(nodes: seq<Node>, parent: Option<string>, k: nat, before: set<string>, mid: set<string>,
      after: set<string>)
    requires k < |Children(nodes, parent)| && Visiting(nodes, parent, k, before, mid)
    requires var n := Children(nodes, parent)[k];
      Visited(nodes, Some(n.id), mid + {n.id}, after)
    ensures Visiting(nodes, parent, k + 1, before, after)
  {
    var n := Children(nodes, parent)[k];
    assert n in Children(nodes, parent);
    assert Closed(nodes, {n.id}, after);
    AddedNext(nodes, n, before, mid, after);
  }

  /** Everything below `parent` is shown, and nothing else has been added. */
  ghost predicate Visited(nodes: seq<Node>, parent: Option<string>, before: set<string>, after: set<string>) {
    Added(nodes, parent, before, after) && forall n :: n in nodes && n.parent == parent ==> n.id in after
  }

  /** Below the roots a visit that finds nothing shown below `parent` adds exactly the preorder. */
  ghost predicate InPreorder(nodes: seq<Node>, level: Levels, top: nat, parent: Option<string>,
                             before: set<string>, rows0: seq<TreeRow>, rows: seq<TreeRow>)
  {
    TreeBelowRoots(nodes, level, top) && InTree(level, parent) && Fresh(nodes, parent, before) ==>
      rows == rows0 + Preorder(nodes, level, top, parent)
  }

  lemma VisitingStart(nodes: seq<Node>, parent: Option<string>, seen: set<string>)
    ensures Visiting(nodes, parent, 0, seen, seen)
  {
  }

  lemma AllVisited(nodes: seq<Node>, parent: Option<string>, before: set<string>, after: set<string>)
    requires Visiting(nodes, parent, |Children(nodes, parent)|, before, after)
    ensures Visited(nodes, parent, before, after)
  {
    forall n | n in nodes && n.parent == parent ensures n.id in after {
      assert n in Children(nodes, parent);
    }
  }

  /** Below the roots: the children before position `k` have been shown in preorder, the others are fresh. */
  ghost predicate InOrder(nodes: seq<Node>, level: Levels, top: nat, parent: Option<string>, k: nat,
                          seen: set<string>, rows0: seq<TreeRow>, rows: seq<TreeRow>)
    requires TreeBelowRoots(nodes, level, top) && InTree(level, parent) && k <= |Children(nodes, parent)|
  {
    var kids := Children(nodes, parent);
    FreshFrom(nodes, kids, k, seen) && rows == rows0 + PreorderOf(nodes, level, top, parent, kids[..k])
  }

  lemma InOrderStart(nodes: seq<Node>, level: Levels, top: nat, parent: Option<string>, seen: set<string>,
      rows: seq<TreeRow>)
    requires TreeBelowRoots(nodes, level, top) && InTree(level, parent) && Fresh(nodes, parent, seen)
    ensures InOrder(nodes, level, top, parent, 0, seen, rows, rows)
  {
    FreshChildren(nodes, parent, seen);
    assert Children(nodes, parent)[..0] == [];
  }

  lemma InOrderEnd(nodes: seq<Node>, level: Levels, top: nat, parent: Option<string>, seen: set<string>,
                   rows0: seq<TreeRow>, rows: seq<TreeRow>)
    requires TreeBelowRoots(nodes, level, top) && InTree(level, parent)
    requires InOrder(nodes, level, top, parent, |Children(nodes, parent)|, seen, rows0, rows)
    ensures rows == rows0 + Preorder(nodes, level, top, parent)
  {
    var kids := Children(nodes, parent);
    assert kids[..|kids|] == kids;
  }

  lemma InOrderNext(nodes: seq<Node>, level: Levels, top: nat, parent: Option<string>, k: nat, mid: set<string>,
                    after: set<string>, rows0: seq<TreeRow>, rowsMid: seq<TreeRow>, rows: seq<TreeRow>)
    requires TreeBelowRoots(nodes, level, top) && InTree(level, parent) && k < |Children(nodes, parent)|
    requires InOrder(nodes, level, top, parent, k, mid, rows0, rowsMid)
    requires var n := Children(nodes, parent)[k];
      && Visited(nodes, Some(n.id), mid + {n.id}, after)
      && InPreorder(nodes, level, top, Some(n.id), mid + {n.id}, rowsMid + [RowOf(n)], rows)
    ensures InOrder(nodes, level, top, parent, k + 1, after, rows0, rows)
  {
    var n := Children(nodes, parent)[k];
    assert n in Children(nodes, parent);
    FreshChild(nodes, level, top, Children(nodes, parent), k, mid);
    FreshSiblings(nodes, level, top, parent, k, mid, after);
    PreorderNext(nodes, level, top, parent, k, rows0, rowsMid, rows);
  }

  lemma PreorderNext(nodes: seq<Node>, level: Levels, top: nat, parent: Option<string>, k: nat,
                     rows0: seq<TreeRow>, rowsMid: seq<TreeRow>, rows: seq<TreeRow>)
    requires TreeBelowRoots(nodes, level, top) && InTree(level, parent) && k < |Children(nodes, parent)|
    requires rowsMid == rows0 + PreorderOf(nodes, level, top, parent, Children(nodes, parent)[..k])
    requires var n := Children(nodes, parent)[k];
      rows == rowsMid + [RowOf(n)] + Preorder(nodes, level, top, Some(n.id))
    ensures rows == rows0 + PreorderOf(nodes, level, top, parent, Children(nodes, parent)[..k + 1])
  {
    var kids := Children(nodes, parent);
    PreorderOfSnoc(nodes, level, top, parent, kids[..k + 1]);
    assert kids[..k + 1][..k] == kids[..k];
    Regroup(rows0, PreorderOf(nodes, level, top, parent, kids[..k]), [RowOf(kids[k])],
            Preorder(nodes, level, top, Some(kids[k].id)));
  }

  lemma PreorderOfSnoc(nodes: seq<Node>, level: Levels, top: nat, parent: Option<string>, kids: seq<Node>)
    requires TreeBelowRoots(nodes, level, top) && InTree(level, parent) && kids != []
    requires |kids| <= |nodes| && forall n :: n in kids ==> n in nodes && n.parent == parent
    ensures PreorderOf(nodes, level, top, parent, kids) ==
      PreorderOf(nodes, level, top, parent, kids[..|kids| - 1]) + [RowOf(kids[|kids| - 1])]
      + Preorder(nodes, level, top, Some(kids[|kids| - 1].id))
  {
  }

  lemma Regroup(a: seq<TreeRow>, b: seq<TreeRow>, c: seq<TreeRow>, d: seq<TreeRow>)
    ensures a + b + c + d == a + (b + c + d)
  {
  }

  /**
   The rows of the tree: exactly the identifiers reachable from a node without a parent, each once,
   and each below its parent. Without a cycle below a root they are exactly the preorder: every subtree
   is one block.
   */
  method AgentTreeRows(nodes: seq<Node>, ghost level: Levels, ghost top: nat) returns (rows: seq<TreeRow>)
    ensures forall id :: id in RowIds(rows) <==> Reach(nodes, None, id)
    ensures forall i, j :: 0 <= i < j < |rows| ==> rows[i].id != rows[j].id
    ensures forall i :: 0 <= i < |rows| ==> PlacedAt(nodes, rows, i)
    ensures TreeBelowRoots(nodes, level, top) ==> rows == Preorder(nodes, level, top, None)
    ensures Forest(nodes, level, top) ==> RowIds(rows) == Ids(nodes)
  {
    var byParent := GroupByParent(nodes);
    var seen;
    seen, rows := Visit(nodes, byParent, None, {}, [], level, top);
    forall id | Reach(nodes, None, id) ensures id in RowIds(rows) {
      var path: seq<Node> :| PathFrom(nodes, None, path) && path[|path| - 1].id == id;
      ClosedHoldsReach(nodes, seen, path);
    }
    if Forest(nodes, level, top) {
      EverythingShown(nodes, level, top, rows);
    }
  }

  lemma EverythingShown(nodes: seq<Node>, level: Levels, top: nat, rows: seq<TreeRow>)
    requires Forest(nodes, level, top)
    requires forall id :: id in RowIds(rows) <==> Reach(nodes, None, id)
    ensures RowIds(rows) == Ids(nodes)
  {
    forall n | n in nodes ensures n.id in RowIds(rows) {
      var path := AllReachable(nodes, level, top, n);
      assert Reach(nodes, None, n.id);
    }
    forall id | id in RowIds(rows) ensures id in Ids(nodes) {
      var path: seq<Node> :| PathFrom(nodes, None, path) && path[|path| - 1].id == id;
      assert path[|path| - 1] in nodes;
    }
  }
}
