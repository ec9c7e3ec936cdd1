/** The dependency tree of pkg/dag: built node by node and edge by edge on a DAG that rejects
    unknown ends, self loops, repeated edges and edges that would close a cycle. */
module Dag {
  import opened Reachability

  datatype Node = Node(id: string, dependsOn: seq<string>)

  function Ids(nodes: seq<Node>): set<string> {
    set k | 0 <= k < |nodes| :: nodes[k].id
  }

  function Elements(s: seq<string>): set<string> {
    set x | x in s
  }

  ghost predicate DistinctIds(nodes: seq<Node>) {
    forall i, j :: 0 <= i < j < |nodes| ==> nodes[i].id != nodes[j].id
  }

  /** The dependency relation declared by a list of nodes. */
  ghost function DepGraph(nodes: seq<Node>): map<string, set<string>> {
    map id | id in Ids(nodes) :: set k, d | 0 <= k < |nodes| && nodes[k].id == id && d in nodes[k].dependsOn :: d
  }

  /** The lists that make a tree: unique ids, dependencies that are known and listed once, no cycle. */
  ghost predicate WellFormed(nodes: seq<Node>) {
    && DistinctIds(nodes)
    && (forall k :: 0 <= k < |nodes| ==> Known(nodes[k].dependsOn, Ids(nodes)))
    && Acyclic(DepGraph(nodes))
  }

  lemma DepGraphAt(nodes: seq<Node>, k: nat)
    requires DistinctIds(nodes) && k < |nodes|
    ensures nodes[k].id in Ids(nodes) && DepGraph(nodes)[nodes[k].id] == Elements(nodes[k].dependsOn)
  {
  }

  /** The part of the dependency list of node `k` that is inserted once the loops are at `i`, `j`. */
  function Prefix(deps: seq<string>, k: nat, i: nat, j: nat): seq<string>
    requires k == i ==> j <= |deps|
  {
    if k < i then deps else if k == i then deps[..j] else []
  }

  /** Dependencies that are listed once and known. */
  ghost predicate Known(deps: seq<string>, ids: set<string>) {
    NoRepeats(deps) && Elements(deps) <= ids
  }

  /** The order in which nodes are listed matters neither for success nor for the tree. */
  lemma OrderIrrelevant(a: seq<Node>, b: seq<Node>)
    requires DistinctIds(a) && DistinctIds(b) && forall n :: n in a <==> n in b
    ensures WellFormed(a) <==> WellFormed(b)
    ensures DepGraph(a) == DepGraph(b)
  {
    SameNodes(a, b);
    SameNodes(b, a);
    forall k | WellFormed(a) && 0 <= k < |b| ensures Known(b[k].dependsOn, Ids(b)) {
      assert b[k] in a;
    }
    forall k | WellFormed(b) && 0 <= k < |a| ensures Known(a[k].dependsOn, Ids(a)) {
      assert a[k] in b;
    }
  }

  lemma SameNodes(a: seq<Node>, b: seq<Node>)
    requires DistinctIds(a) && DistinctIds(b) && forall n :: n in a <==> n in b
    ensures forall id :: id in Ids(a) ==> id in Ids(b) && DepGraph(a)[id] == DepGraph(b)[id]
  {
    forall id | id in Ids(a) ensures id in Ids(b) && DepGraph(a)[id] == DepGraph(b)[id] {
      var k :| 0 <= k < |a| && a[k].id == id;
      assert a[k] in b;
      var j :| 0 <= j < |b| && b[j] == a[k];
      DepGraphAt(a, k);
      DepGraphAt(b, j);
    }
  }

  /** `edges` after the dependencies of nodes 0..i-1 and the first `j` of node `i` were inserted. */
  ghost predicate Inserted(edges: map<string, set<string>>, nodes: seq<Node>, i: nat, j: nat)
    requires i < |nodes| ==> j <= |nodes[i].dependsOn|
  {
    && edges.Keys == Ids(nodes)
    && forall k :: 0 <= k < |nodes| ==> edges[nodes[k].id] == Elements(Prefix(nodes[k].dependsOn, k, i, j))
  }

  lemma InsertedIsSubGraph(edges: map<string, set<string>>, nodes: seq<Node>, i: nat, j: nat)
    requires DistinctIds(nodes) && (i < |nodes| ==> j <= |nodes[i].dependsOn|)
    requires Inserted(edges, nodes, i, j)
    ensures SubGraph(edges, DepGraph(nodes))
  {
    forall x | x in edges ensures x in DepGraph(nodes) && edges[x] <= DepGraph(nodes)[x] {
      var k :| 0 <= k < |nodes| && nodes[k].id == x;
      DepGraphAt(nodes, k);
    }
  }

  lemma InsertedAll(edges: map<string, set<string>>, nodes: seq<Node>)
    requires DistinctIds(nodes) && Inserted(edges, nodes, |nodes|, 0)
    ensures edges == DepGraph(nodes)
  {
    forall x | x in edges ensures edges[x] == DepGraph(nodes)[x] {
      var k :| 0 <= k < |nodes| && nodes[k].id == x;
      DepGraphAt(nodes, k);
    }
  }

  /** Why an edge of the list may be refused. */
  ghost predicate Refused(edges: map<string, set<string>>, src: string, dst: string) {
    src !in edges || dst !in edges || src == dst || src in edges[dst] || Reaches(edges, src, dst)
  }

  /** A refused edge is always the fault of the whole list, whatever was inserted before it. */
  lemma RefusedMeansIllFormed(edges: map<string, set<string>>, nodes: seq<Node>, i: nat, j: nat)
    requires DistinctIds(nodes) && i < |nodes| && j < |nodes[i].dependsOn|
    requires Inserted(edges, nodes, i, j)
    requires Refused(edges, nodes[i].dependsOn[j], nodes[i].id)
    ensures !WellFormed(nodes)
  {
    var n := nodes[i];
    var dep := n.dependsOn[j];
    var g := DepGraph(nodes);
    DepGraphAt(nodes, i);
    if dep !in edges {
      assert dep in Elements(n.dependsOn);
    } else if dep == n.id {
      ReachesSelf(g, dep);
      InsertClosesCycle(g, n.id, dep);
    } else if dep in edges[n.id] {
      var j' :| 0 <= j' < j && n.dependsOn[j'] == dep;
      assert !NoRepeats(n.dependsOn);
    } else {
      InsertedIsSubGraph(edges, nodes, i, j);
      var p :| PathFromTo(edges, p, dep, n.id);
      SubGraphPath(edges, g, p);
      assert PathFromTo(g, p, dep, n.id);
      InsertClosesCycle(g, n.id, dep);
    }
  }

  lemma InsertedNext(edges: map<string, set<string>>, nodes: seq<Node>, i: nat, j: nat)
    requires DistinctIds(nodes) && i < |nodes| && j < |nodes[i].dependsOn|
    requires Inserted(edges, nodes, i, j)
    ensures Inserted(WithEdge(edges, nodes[i].id, nodes[i].dependsOn[j]), nodes, i, j + 1)
  {
  }

  class Tree {
    var nodes: map<string, Node>
    /** For every vertex the sources of its incoming edges, that is, its dependencies. */
    var parents: map<string, set<string>>

    ghost predicate Valid()
      reads this
    {
      && parents.Keys == nodes.Keys
      && (forall id :: id in nodes ==> nodes[id].id == id && parents[id] <= nodes.Keys)
      && Acyclic(parents)
    }

    /** The edges are exactly the declared dependencies. */
    ghost predicate Built()
      reads this
    {
      Valid() && forall id :: id in nodes ==> parents[id] == Elements(nodes[id].dependsOn) && NoRepeats(nodes[id].dependsOn)
    }

    constructor ()
      ensures Valid() && nodes == map[]
    {
      nodes, parents := map[], map[];
    }

    method AddVertex(n: Node) returns (ok: bool)
      requires Valid()
      modifies this
      ensures Valid()
      ensures ok <==> n.id !in old(nodes)
      ensures nodes == if ok then old(nodes)[n.id := n] else old(nodes)
      ensures parents == if ok then old(parents)[n.id := {}] else old(parents)
    {
      ok := n.id !in nodes;
      if ok {
        IsolatedVertexKeepsAcyclic(parents, n.id);
        nodes, parents := nodes[n.id := n], parents[n.id := {}];
      }
    }

    /** Every edge that is accepted keeps the graph acyclic; every other edge changes nothing. */
    method AddEdge(src: string, dst: string) returns (ok: bool)
      requires Valid()
      modifies this`parents
      ensures Valid()
      ensures ok <==> !Refused(old(parents), src, dst)
      ensures dst in old(parents) ==> parents == if ok then WithEdge(old(parents), dst, src) else old(parents)
      ensures !ok ==> parents == old(parents)
    {
      ok := src in nodes && dst in nodes && src != dst && src !in parents[dst];
      if ok {
        var above := Closure(parents, src);
        ok := dst !in above;
        if ok {
          InsertKeepsAcyclic(parents, dst, src);
          parents := WithEdge(parents, dst, src);
        }
      }
    }

    /** An empty selection is the tree itself. Otherwise the selection fails only on an unknown id, and
        the new tree holds exactly the nodes some selected id depends on, directly or not. */
    method Subtree(ids: seq<string>) returns (r: Tree?)
      requires Built()
      ensures ids == [] ==> r == this
      ensures r == null <==> exists k :: 0 <= k < |ids| && ids[k] !in nodes
      ensures r != null && ids != [] ==> fresh(r) && r.Built()
      ensures r != null && ids != [] ==>
        forall x :: x in r.nodes <==> exists k :: 0 <= k < |ids| && Reaches(parents, ids[k], x)
      ensures r != null ==> forall x :: x in r.nodes ==> x in nodes && r.nodes[x] == nodes[x]
    {
      if ids == [] {
        return this;
      }
      var ok, selection := Select(ids);
      if !ok {
        return null;
      }
      var subnodes := ListNodes(selection);
      SelectionClosed(parents, selection, ids);
      SelectionWellFormed(this, selection, subnodes);
      r := From(subnodes);
    }

    /** The ids and everything they depend on. */
    method Select(ids: seq<string>) returns (ok: bool, selection: set<string>)
      requires Valid()
      ensures ok <==> forall k :: 0 <= k < |ids| ==> ids[k] in nodes
      ensures ok ==> selection <= nodes.Keys
      ensures ok ==> forall x :: x in selection <==> exists k :: 0 <= k < |ids| && Reaches(parents, ids[k], x)
    {
      selection := {};
      for i := 0 to |ids|
        invariant selection <= nodes.Keys
        invariant forall k :: 0 <= k < i ==> ids[k] in nodes
        invariant forall x :: x in selection <==> exists k :: 0 <= k < i && Reaches(parents, ids[k], x)
      {
        if ids[i] !in nodes {
          return false, selection;
        }
        var below := Closure(parents, ids[i]);
        forall x | x in below ensures x in nodes {
          ClosedContainsReachable(parents, nodes.Keys, ids[i], x);
        }
        selection := selection + below;
      }
      ok := true;
    }

    /** The selected nodes in the order a map iteration happens to produce. */
    method ListNodes(selection: set<string>) returns (list: seq<Node>)
      requires Valid() && selection <= nodes.Keys
      ensures DistinctIds(list) && Ids(list) == selection
      ensures forall k :: 0 <= k < |list| ==> list[k].id in nodes && list[k] == nodes[list[k].id]
    {
      list := [];
      var rest := selection;
      while rest != {}
        invariant rest <= selection
        invariant DistinctIds(list) && Ids(list) == selection - rest
        invariant forall k :: 0 <= k < |list| ==> list[k].id in nodes && list[k] == nodes[list[k].id]
      {
        var id :| id in rest;
        ghost var was := list;
        assert forall k :: 0 <= k < |list| ==> list[k].id in Ids(list);
        list, rest := list + [nodes[id]], rest - {id};
        IdsSnoc(was, nodes[id]);
      }
    }

    /** Each node once, and every dependency before the node that needs it. Any vertex whose parents
        were all visited may come next; acyclicity guarantees that there always is one. */
    method Ordered() returns (s: seq<string>)
      requires Built()
      ensures NoRepeats(s) && Elements(s) == nodes.Keys && DependenciesFirst(nodes, s)
    {
      s := [];
      var rest := nodes.Keys;
      while rest != {}
        invariant Elements(s) == nodes.Keys - rest && rest <= nodes.Keys && NoRepeats(s)
        invariant DependenciesFirst(nodes, s)
      {
        ghost var sink := AcyclicHasSink(parents, rest);
        var n :| n in rest && parents[n] * rest == {};
        assert forall d :: d in parents[n] ==> d !in parents[n] * rest && d in nodes.Keys;
        OrderedNext(nodes, s, n);
        s, rest := s + [n], rest - {n};
      }
    }
  }

  /** Every dependency of a listed node is listed before it. */
  ghost predicate DependenciesFirst(nodes: map<string, Node>, s: seq<string>) {
    forall i :: 0 <= i < |s| ==> s[i] in nodes && Elements(nodes[s[i]].dependsOn) <= Elements(s[..i])
  }

  lemma OrderedNext(nodes: map<string, Node>, s: seq<string>, n: string)
    requires n in nodes && n !in Elements(s) && NoRepeats(s) && DependenciesFirst(nodes, s)
    requires Elements(nodes[n].dependsOn) <= Elements(s)
    ensures NoRepeats(s + [n]) && Elements(s + [n]) == Elements(s) + {n} && DependenciesFirst(nodes, s + [n])
  {
  }

  lemma IsolatedVertexKeepsAcyclic(g: map<string, set<string>>, x: string)
    requires Acyclic(g) && x !in g
    ensures Acyclic(g[x := {}])
  {
    SubGraphAcyclic(g[x := {}], g);
  }

  lemma IdsSnoc(list: seq<Node>, n: Node)
    ensures Ids(list + [n]) == Ids(list) + {n.id}
  {
    var all := list + [n];
    assert all[|list|] == n;
    forall x | x in Ids(list) ensures x in Ids(all) {
      var k :| 0 <= k < |list| && list[k].id == x;
      assert all[k].id == x;
    }
  }

  lemma SelectionClosed(g: map<string, set<string>>, selection: set<string>, ids: seq<string>)
    requires forall x :: x in selection <==> exists k :: 0 <= k < |ids| && Reaches(g, ids[k], x)
    ensures ClosedUnder(g, selection)
  {
    forall x, y | x in selection && x in g && y in g[x] ensures y in selection {
      var k :| 0 <= k < |ids| && Reaches(g, ids[k], x);
      ReachesEdge(g, ids[k], x, y);
    }
  }

  /** Any listing of a dependency-closed part of a built tree can be built again. */
  lemma SelectionWellFormed(t: Tree, selection: set<string>, list: seq<Node>)
    requires t.Built() && selection <= t.nodes.Keys && ClosedUnder(t.parents, selection)
    requires DistinctIds(list) && Ids(list) == selection
    requires forall k :: 0 <= k < |list| ==> list[k].id in t.nodes && list[k] == t.nodes[list[k].id]
    ensures WellFormed(list)
  {
  }

  /** Succeeds exactly on the well-formed lists, and then the tree is the declared dependency graph. */
  method From(nodes: seq<Node>) returns (t: Tree?)
    ensures t != null <==> WellFormed(nodes)
    ensures t != null ==> fresh(t) && t.Built() && t.parents == DepGraph(nodes) && t.nodes.Keys == Ids(nodes)
    ensures t != null ==> forall k :: 0 <= k < |nodes| ==> t.nodes[nodes[k].id] == nodes[k]
  {
    var tree, distinct := AddVertices(nodes);
    if !distinct {
      return null;
    }
    for i := 0 to |nodes|
      invariant fresh(tree) && tree.Valid() && tree.nodes.Keys == Ids(nodes)
      invariant forall k :: 0 <= k < |nodes| ==> tree.nodes[nodes[k].id] == nodes[k]
      invariant Inserted(tree.parents, nodes, i, 0)
      invariant forall k :: 0 <= k < i ==> Known(nodes[k].dependsOn, Ids(nodes))
    {
      var ok := InsertDependencies(tree, nodes, i);
      if !ok {
        return null;
      }
    }
    InsertedAll(tree.parents, nodes);
    t := tree;
  }

  /** The first loop of `From`. */
  method AddVertices(nodes: seq<Node>) returns (tree: Tree, ok: bool)
    ensures fresh(tree) && tree.Valid() && (ok <==> DistinctIds(nodes))
    ensures ok ==> tree.nodes.Keys == Ids(nodes) && Inserted(tree.parents, nodes, 0, 0)
    ensures ok ==> forall k :: 0 <= k < |nodes| ==> tree.nodes[nodes[k].id] == nodes[k]
  {
    tree := new Tree();
    for i := 0 to |nodes|
      invariant fresh(tree) && tree.Valid() && Loaded(tree.nodes, tree.parents, nodes[..i])
    {
      ghost var vertices, edges := tree.nodes, tree.parents;
      ok := tree.AddVertex(nodes[i]);
      if !ok {
        RepeatedId(vertices, edges, nodes, i);
        return;
      }
      LoadedNext(vertices, edges, nodes, i);
    }
    LoadedAll(tree.nodes, tree.parents, nodes);
    ok := true;
  }

  /** The vertices of a list, without edges. */
  ghost predicate Loaded(vertices: map<string, Node>, edges: map<string, set<string>>, nodes: seq<Node>) {
    && DistinctIds(nodes) && vertices.Keys == edges.Keys == Ids(nodes)
    && (forall k :: 0 <= k < |nodes| ==> vertices[nodes[k].id] == nodes[k])
    && (forall x :: x in edges ==> edges[x] == {})
  }

  lemma LoadedNext(vertices: map<string, Node>, edges: map<string, set<string>>, nodes: seq<Node>, i: nat)
    requires i < |nodes| && Loaded(vertices, edges, nodes[..i]) && nodes[i].id !in vertices
    ensures Loaded(vertices[nodes[i].id := nodes[i]], edges[nodes[i].id := {}], nodes[..i + 1])
  {
  }

  lemma RepeatedId(vertices: map<string, Node>, edges: map<string, set<string>>, nodes: seq<Node>, i: nat)
    requires i < |nodes| && Loaded(vertices, edges, nodes[..i]) && nodes[i].id in vertices
    ensures !DistinctIds(nodes)
  {
  }

  lemma LoadedAll(vertices: map<string, Node>, edges: map<string, set<string>>, nodes: seq<Node>)
    requires Loaded(vertices, edges, nodes[..|nodes|])
    ensures DistinctIds(nodes) && vertices.Keys == Ids(nodes) && Inserted(edges, nodes, 0, 0)
    ensures forall k :: 0 <= k < |nodes| ==> vertices[nodes[k].id] == nodes[k]
  {
  }

  lemma KnownNext(deps: seq<string>, j: nat, ids: set<string>)
    requires j < |deps| && Known(deps[..j], ids) && deps[j] !in deps[..j] && deps[j] in ids
    ensures Known(deps[..j + 1], ids)
  {
  }

  /** The inner loop of `From`: the edges of one node. */
  method InsertDependencies(tree: Tree, nodes: seq<Node>, i: nat) returns (ok: bool)
    requires tree.Valid() && DistinctIds(nodes) && i < |nodes| && tree.nodes.Keys == Ids(nodes)
    requires Inserted(tree.parents, nodes, i, 0)
    modifies tree`parents
    ensures tree.Valid()
    ensures ok ==> Inserted(tree.parents, nodes, i + 1, 0)
    ensures ok ==> Known(nodes[i].dependsOn, Ids(nodes))
    ensures !ok ==> !WellFormed(nodes)
  {
    var n := nodes[i];
    for j := 0 to |n.dependsOn|
      invariant tree.Valid() && Inserted(tree.parents, nodes, i, j)
      invariant Known(n.dependsOn[..j], Ids(nodes))
    {
      ghost var before := tree.parents;
      assert n.id in Ids(nodes);
      ok := tree.AddEdge(n.dependsOn[j], n.id);
      if !ok {
        RefusedMeansIllFormed(before, nodes, i, j);
        return;
      }
      InsertedNext(before, nodes, i, j);
      KnownNext(n.dependsOn, j, Ids(nodes));
    }
    assert n.dependsOn[..|n.dependsOn|] == n.dependsOn;
    ok := true;
  }

  /** The node set of `Subtree` is the least one that holds the ids and is closed under dependencies. */
  lemma SubtreeIsLeast(g: map<string, set<string>>, ids: seq<string>, chosen: set<string>, other: set<string>)
    requires forall x :: x in chosen <==> exists k :: 0 <= k < |ids| && Reaches(g, ids[k], x)
    ensures Elements(ids) <= chosen && ClosedUnder(g, chosen)
    ensures Elements(ids) <= other && ClosedUnder(g, other) ==> chosen <= other
  {
    SelectionClosed(g, chosen, ids);
    forall x | x in Elements(ids) ensures x in chosen {
      var k :| 0 <= k < |ids| && ids[k] == x;
      ReachesSelf(g, x);
      assert Reaches(g, ids[k], x);
    }
    if Elements(ids) <= other && ClosedUnder(g, other) {
      forall x | x in chosen ensures x in other {
        var k :| 0 <= k < |ids| && Reaches(g, ids[k], x);
        assert ids[k] in Elements(ids);
        ClosedContainsReachable(g, other, ids[k], x);
      }
    }
  }
}
