/**
 The agent tree of a session from end to end: what the server derives from the attempts, as the
 dashboard shows it.
 */
module SessionView {
  import opened Wrappers
  import Ordering
  import AgentHierarchy
  import AgentTree

  function TreeNode(n: AgentHierarchy.AgentNode): AgentTree.Node {
    AgentTree.Node(n.agentId, n.parent, n.depth, n.attempts)
  }

  function TreeNodes(nodes: seq<AgentHierarchy.AgentNode>): (r: seq<AgentTree.Node>)
    ensures |r| == |nodes| && forall i :: 0 <= i < |r| ==> r[i] == TreeNode(nodes[i])
  {
    if nodes == [] then [] else TreeNodes(nodes[..|nodes| - 1]) + [TreeNode(nodes[|nodes| - 1])]
  }

  /** The tree's nodes are the agents of the parent map, each with its parent. */
  predicate Mirrors(parents: AgentHierarchy.Parents, nodes: seq<AgentTree.Node>) {
    && (forall n :: n in nodes ==> n.id in parents && n.parent == parents[n.id])
    && (forall a :: a in parents ==> exists n :: n in nodes && n.id == a)
    && (forall a :: a in parents && parents[a].Some? ==> parents[a].value in parents)
  }

  ghost predicate Rooted(parents: AgentHierarchy.Parents, agent: string) {
    exists path :: AgentHierarchy.RootPath(parents, agent, path)
  }

  /** A path down to an agent is, upwards, its chain of parents. */
  lemma {:induction false} UpFrom(parents: AgentHierarchy.Parents, nodes: seq<AgentTree.Node>,
      path: seq<AgentTree.Node>)
      returns (up: seq<string>)
    requires Mirrors(parents, nodes) && AgentTree.PathFrom(nodes, None, path)
    ensures AgentHierarchy.RootPath(parents, path[|path| - 1].id, up)
    decreases |path|
  {
    var n := path[|path| - 1];
    assert n in nodes;
    if |path| == 1 {
      up := [n.id];
    } else {
      AgentTree.InitOfPath(nodes, None, path);
      var rest := UpFrom(parents, nodes, path[..|path| - 1]);
      assert n.parent == Some(path[|path| - 1 - 1].id);
      AgentHierarchy.RootPathCons(parents, n.id, path[|path| - 2].id, rest);
      up := [n.id] + rest;
    }
  }

  /** The chain of parents of an agent is, downwards, a path to it. */
  lemma {:induction false} DownTo(parents: AgentHierarchy.Parents, nodes: seq<AgentTree.Node>, agent: string,
      up: seq<string>)
      returns (path: seq<AgentTree.Node>)
    requires Mirrors(parents, nodes) && agent in parents && AgentHierarchy.RootPath(parents, agent, up)
    ensures AgentTree.PathFrom(nodes, None, path) && path[|path| - 1].id == agent
    decreases |up|
  {
    var n :| n in nodes && n.id == agent;
    AgentHierarchy.RootPathDepth(parents, agent, up);
    if |up| == 1 {
      path := [n];
    } else {
      var above := DownTo(parents, nodes, parents[agent].value, up[1..]);
      AgentTree.PathSnoc(nodes, None, above, n);
      path := above + [n];
    }
  }

  /** An agent can be reached from a root exactly when its chain of parents ends. */
  lemma ReachedIffRooted(parents: AgentHierarchy.Parents, nodes: seq<AgentTree.Node>, agent: string)
    requires Mirrors(parents, nodes)
    ensures AgentTree.Reach(nodes, None, agent) <==> agent in parents && Rooted(parents, agent)
  {
    if AgentTree.Reach(nodes, None, agent) {
      var path: seq<AgentTree.Node> :| AgentTree.PathFrom(nodes, None, path) && path[|path| - 1].id == agent;
      var up := UpFrom(parents, nodes, path);
      assert path[|path| - 1] in nodes;
    }
    if agent in parents && Rooted(parents, agent) {
      var up :| AgentHierarchy.RootPath(parents, agent, up);
      var path := DownTo(parents, nodes, agent, up);
    }
  }

  // ----- levels: how far below a root -----

  /** The length of the chain of parents, or -1 when it does not end. */
  ghost function Level(parents: AgentHierarchy.Parents, agent: string): int {
    if path :| AgentHierarchy.RootPath(parents, agent, path) then |path| - 1 else -1
  }

  ghost function Levels(parents: AgentHierarchy.Parents): AgentTree.Levels {
    agent => Level(parents, agent)
  }

  lemma LevelMeaning(parents: AgentHierarchy.Parents, agent: string, path: seq<string>)
    requires AgentHierarchy.RootPath(parents, agent, path)
    ensures Level(parents, agent) == |path| - 1
  {
    var q :| AgentHierarchy.RootPath(parents, agent, q) && Level(parents, agent) == |q| - 1;
    AgentHierarchy.RootPathUnique(parents, agent, path, q);
  }

  /** An agent has a level exactly when its parent has one, and then the next one. */
  lemma LevelOfChild(parents: AgentHierarchy.Parents, agent: string)
    ensures match AgentHierarchy.ParentOf(parents, agent)
      case None => Level(parents, agent) == 0
      case Some(p) => Level(parents, agent) == if Level(parents, p) >= 0 then Level(parents, p) + 1 else -1
  {
    match AgentHierarchy.ParentOf(parents, agent)
    case None =>
      assert AgentHierarchy.RootPath(parents, agent, [agent]);
      LevelMeaning(parents, agent, [agent]);
    case Some(p) =>
      if path :| AgentHierarchy.RootPath(parents, p, path) {
        LevelMeaning(parents, p, path);
        AgentHierarchy.RootPathCons(parents, agent, p, path);
        LevelMeaning(parents, agent, [agent] + path);
      } else if path :| AgentHierarchy.RootPath(parents, agent, path) {
        AgentHierarchy.RootPathDepth(parents, agent, path);
      }
  }

  /** The server's depth is the level wherever there is one. */
  lemma DepthIsLevel(rows: seq<AgentHierarchy.Attempt>, n: AgentHierarchy.AgentNode)
    requires AgentHierarchy.Describes(rows, n)
    ensures var parents := AgentHierarchy.ParentMap(rows);
      Level(parents, n.agentId) <= |parents.Keys|
        && (Level(parents, n.agentId) >= 0 ==> Level(parents, n.agentId) == n.depth)
  {
  }

  // ----- the list of a session as a tree -----

  /** The list that the server returns for the attempts: one node per agent, by depth and identifier. */
  ghost predicate Listed(rows: seq<AgentHierarchy.Attempt>, nodes: seq<AgentHierarchy.AgentNode>) {
    && AgentHierarchy.Hierarchy(rows, nodes)
    && forall i, j :: 0 <= i < j < |nodes| ==>
         AgentHierarchy.SortKeyLess(AgentHierarchy.SortKey(nodes[i].depth, nodes[i].agentId),
                                    AgentHierarchy.SortKey(nodes[j].depth, nodes[j].agentId))
  }

  lemma ListedIsMirrored(rows: seq<AgentHierarchy.Attempt>, nodes: seq<AgentHierarchy.AgentNode>)
    requires Listed(rows, nodes)
    ensures Mirrors(AgentHierarchy.ParentMap(rows), TreeNodes(nodes))
  {
    var tree, parents := TreeNodes(nodes), AgentHierarchy.ParentMap(rows);
    forall n | n in tree ensures n.id in parents && n.parent == parents[n.id] {
      var i :| 0 <= i < |tree| && tree[i] == n;
      assert AgentHierarchy.Describes(rows, nodes[i]);
    }
    forall a | a in parents ensures exists n :: n in tree && n.id == a {
      var i :| 0 <= i < |nodes| && nodes[i].agentId == a;
      assert tree[i] in tree;
    }
    forall a | a in parents && parents[a].Some? ensures parents[a].value in parents {
      AgentHierarchy.ParentMapIsClosed(rows, a);
    }
  }

  /** A node that hangs below a root has its level as depth. */
  lemma NodeLevel(rows: seq<AgentHierarchy.Attempt>, nodes: seq<AgentHierarchy.AgentNode>, n: AgentTree.Node)
    requires Listed(rows, nodes) && n in TreeNodes(nodes)
    ensures var parents := AgentHierarchy.ParentMap(rows);
      && n.parent == AgentHierarchy.ParentOf(parents, n.id)
      && n.attempts == AgentHierarchy.Count(rows, n.id)
      && Level(parents, n.id) <= |parents.Keys| && (Level(parents, n.id) >= 0 ==> n.depth == Level(parents, n.id))
  {
    var i :| 0 <= i < |nodes| && TreeNodes(nodes)[i] == n;
    assert AgentHierarchy.Describes(rows, nodes[i]);
    DepthIsLevel(rows, nodes[i]);
  }

  lemma ListedIsTree(rows: seq<AgentHierarchy.Attempt>, nodes: seq<AgentHierarchy.AgentNode>)
    requires Listed(rows, nodes)
    ensures var parents := AgentHierarchy.ParentMap(rows);
      AgentTree.TreeBelowRoots(TreeNodes(nodes), Levels(parents), |parents.Keys|)
  {
    var tree, parents := TreeNodes(nodes), AgentHierarchy.ParentMap(rows);
    forall n | n in tree && AgentTree.InTree(Levels(parents), n.parent)
      ensures 0 <= Level(parents, n.id) <= |parents.Keys|
      ensures n.parent.Some? ==> Level(parents, n.parent.value) < Level(parents, n.id)
    {
      NodeLevel(rows, nodes, n);
      LevelOfChild(parents, n.id);
    }
  }

  /** Children come in list order. */
  lemma {:induction false} ChildrenInOrder(nodes: seq<AgentTree.Node>, parent: Option<string>, i: nat, j: nat)
      returns (a: nat, b: nat)
    requires i < j < |AgentTree.Children(nodes, parent)|
    ensures a < b < |nodes|
    ensures nodes[a] == AgentTree.Children(nodes, parent)[i] && nodes[b] == AgentTree.Children(nodes, parent)[j]
    decreases |nodes|
  {
    var init := nodes[..|nodes| - 1];
    var kids := AgentTree.Children(init, parent);
    if j < |kids| {
      a, b := ChildrenInOrder(init, parent, i, j);
    } else {
      b := |nodes| - 1;
      assert kids[i] in kids;
      a :| 0 <= a < |init| && init[a] == kids[i];
    }
  }

  /** Siblings that hang below a root come in the order of their identifiers. */
  lemma SiblingsInOrder(rows: seq<AgentHierarchy.Attempt>, nodes: seq<AgentHierarchy.AgentNode>,
      parent: Option<string>, i: nat, j: nat)
    requires Listed(rows, nodes) && AgentTree.InTree(Levels(AgentHierarchy.ParentMap(rows)), parent)
    requires i < j < |AgentTree.Children(TreeNodes(nodes), parent)|
    ensures Ordering.Less(AgentTree.Children(TreeNodes(nodes), parent)[i].id,
        AgentTree.Children(TreeNodes(nodes), parent)[j].id)
  {
    var tree, parents := TreeNodes(nodes), AgentHierarchy.ParentMap(rows);
    var kids := AgentTree.Children(tree, parent);
    assert kids[i] in kids && kids[j] in kids;
    var a, b := ChildrenInOrder(tree, parent, i, j);
    NodeLevel(rows, nodes, kids[i]);
    NodeLevel(rows, nodes, kids[j]);
    LevelOfChild(parents, kids[i].id);
    LevelOfChild(parents, kids[j].id);
    assert AgentHierarchy.SortKeyLess(AgentHierarchy.SortKey(nodes[a].depth, nodes[a].agentId),
                                      AgentHierarchy.SortKey(nodes[b].depth, nodes[b].agentId));
  }

  // ----- what is shown -----

  /** A row at depth zero for a root; any other row one deeper than its parent's, which comes before it. */
  predicate Indented(parents: AgentHierarchy.Parents, shown: seq<AgentTree.TreeRow>, i: nat)
    requires i < |shown|
  {
    match AgentHierarchy.ParentOf(parents, shown[i].id)
    case None => shown[i].depth == 0
    case Some(p) => exists j :: 0 <= j < i && shown[j].id == p && shown[i].depth == shown[j].depth + 1
  }

  lemma RowsAreIndented(rows: seq<AgentHierarchy.Attempt>, nodes: seq<AgentHierarchy.AgentNode>,
      shown: seq<AgentTree.TreeRow>, i: nat)
    requires Listed(rows, nodes) && i < |shown|
    requires forall k :: 0 <= k <= i ==> AgentTree.PlacedAt(TreeNodes(nodes), shown, k)
    requires forall k :: 0 <= k <= i ==> Rooted(AgentHierarchy.ParentMap(rows), shown[k].id)
    ensures Indented(AgentHierarchy.ParentMap(rows), shown, i)
    ensures shown[i].attempts == AgentHierarchy.Count(rows, shown[i].id)
  {
    var parents := AgentHierarchy.ParentMap(rows);
    RowLevel(rows, nodes, shown, i);
    LevelOfChild(parents, shown[i].id);
    var n :| n in TreeNodes(nodes) && AgentTree.Placed(TreeNodes(nodes), shown, i, n);
    NodeLevel(rows, nodes, n);
    if n.parent.Some? {
      var row :| row in shown[..i] && row.id == n.parent.value;
      var j :| 0 <= j < i && shown[j] == row;
      RowLevel(rows, nodes, shown, j);
    }
  }

  lemma RowLevel(rows: seq<AgentHierarchy.Attempt>, nodes: seq<AgentHierarchy.AgentNode>,
      shown: seq<AgentTree.TreeRow>, i: nat)
    requires Listed(rows, nodes) && i < |shown| && AgentTree.PlacedAt(TreeNodes(nodes), shown, i)
    requires Rooted(AgentHierarchy.ParentMap(rows), shown[i].id)
    ensures shown[i].depth == Level(AgentHierarchy.ParentMap(rows), shown[i].id)
  {
    var n :| n in TreeNodes(nodes) && AgentTree.Placed(TreeNodes(nodes), shown, i, n);
    NodeLevel(rows, nodes, n);
    var path :| AgentHierarchy.RootPath(AgentHierarchy.ParentMap(rows), shown[i].id, path);
    LevelMeaning(AgentHierarchy.ParentMap(rows), shown[i].id, path);
  }

  /** The server's nodes as a list in the order of depth and identifier. */
  method ListSession(rows: seq<AgentHierarchy.Attempt>) returns (nodes: seq<AgentHierarchy.AgentNode>)
    ensures Listed(rows, nodes)
  {
    ghost var keys;
    nodes, keys := AgentHierarchy.SessionAgents(rows);
    forall i, j | 0 <= i < j < |nodes|
      ensures AgentHierarchy.SortKeyLess(AgentHierarchy.SortKey(nodes[i].depth, nodes[i].agentId),
                                         AgentHierarchy.SortKey(nodes[j].depth, nodes[j].agentId))
    {
      assert AgentHierarchy.SortKeyLess(keys[i], keys[j]);
    }
  }

  /** The rows show exactly the agents whose chain of parents ends, once each, indented and counted. */
  ghost predicate Shows(rows: seq<AgentHierarchy.Attempt>, shown: seq<AgentTree.TreeRow>) {
    var parents := AgentHierarchy.ParentMap(rows);
    && (forall a :: a in AgentTree.RowIds(shown) <==> a in parents && Rooted(parents, a))
    && (forall i, j :: 0 <= i < j < |shown| ==> shown[i].id != shown[j].id)
    && (forall i :: 0 <= i < |shown| ==> Indented(parents, shown, i))
    && (forall i :: 0 <= i < |shown| ==> shown[i].attempts == AgentHierarchy.Count(rows, shown[i].id))
  }

  lemma TreeRowsShow(rows: seq<AgentHierarchy.Attempt>, nodes: seq<AgentHierarchy.AgentNode>,
      shown: seq<AgentTree.TreeRow>)
    requires Listed(rows, nodes)
    requires forall id :: id in AgentTree.RowIds(shown) <==> AgentTree.Reach(TreeNodes(nodes), None, id)
    requires forall i, j :: 0 <= i < j < |shown| ==> shown[i].id != shown[j].id
    requires forall i :: 0 <= i < |shown| ==> AgentTree.PlacedAt(TreeNodes(nodes), shown, i)
    ensures Shows(rows, shown)
  {
    var parents := AgentHierarchy.ParentMap(rows);
    ListedIsMirrored(rows, nodes);
    forall a ensures a in AgentTree.RowIds(shown) <==> a in parents && Rooted(parents, a) {
      ReachedIffRooted(parents, TreeNodes(nodes), a);
    }
    forall i | 0 <= i < |shown| ensures Rooted(parents, shown[i].id) {
      assert shown[i] in shown && shown[i].id in AgentTree.RowIds(shown);
    }
    forall i | 0 <= i < |shown|
      ensures Indented(parents, shown, i) && shown[i].attempts == AgentHierarchy.Count(rows, shown[i].id)
    {
      RowsAreIndented(rows, nodes, shown, i);
    }
  }

  /**
   From attempts to rows: an agent is shown exactly when its chain of parents ends, once, with the number
   of its attempts, one deeper than its parent. The rows are the preorder of the server's list, in which
   siblings come by identifier. The agents of a cycle, and all below them, are listed but never shown.
   */
  method ShowSession(rows: seq<AgentHierarchy.Attempt>)
      returns (shown: seq<AgentTree.TreeRow>, ghost nodes: seq<AgentHierarchy.AgentNode>)
    ensures Listed(rows, nodes) && Shows(rows, shown)
    ensures var parents := AgentHierarchy.ParentMap(rows);
      && AgentTree.TreeBelowRoots(TreeNodes(nodes), Levels(parents), |parents.Keys|)
      && shown == AgentTree.Preorder(TreeNodes(nodes), Levels(parents), |parents.Keys|, None)
  {
    var list := ListSession(rows);
    nodes := list;
    ghost var parents := AgentHierarchy.ParentMap(rows);
    ListedIsTree(rows, nodes);
    shown := AgentTree.AgentTreeRows(TreeNodes(list), Levels(parents), |parents.Keys|);
    TreeRowsShow(rows, nodes, shown);
  }
}
