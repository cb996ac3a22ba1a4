/** The depth-first cycle searches of the design checker.

    `has_cycle` follows only dependencies that are themselves keys of the graph
    (undriven signals have no entry); `has_hierarchy_cycle` follows every
    dependency.  Both keep a set of nodes on the current path and a set of
    finished nodes that survives from one root to the next. */
module CycleCheck {
  import opened Paths

  datatype Graph<N> = Graph(deps: map<N, seq<N>>, keysOnly: bool)
  {
    /** `graph.get(&node).into_iter().flatten()` */
    function Deps(a: N): seq<N> {
      if a in deps then deps[a] else []
    }

    predicate Follows(b: N) {
      keysOnly ==> b in deps
    }

    predicate Edge(a: N, b: N) {
      b in Deps(a) && Follows(b)
    }

    function Relation(): Relation<N> {
      (a, b) => Edge(a, b)
    }

    ghost function Nodes(): set<N> {
      deps.Keys + set a, b | a in deps && b in deps[a] :: b
    }
  }

  /** Finished nodes in the order they were finished: each after everything it
      depends on. */
  ghost predicate IsTopological<N(!new)>(g: Graph<N>, order: seq<N>) {
    && (forall i, j | 0 <= i < j < |order| :: order[i] != order[j])
    && (forall i, b | 0 <= i < |order| && g.Edge(order[i], b) :: b in order[..i])
  }

  lemma {:induction false} TopologicalPath<N(!new)>(g: Graph<N>, order: seq<N>, i: nat, p: seq<N>)
    requires IsTopological(g, order) && i < |order|
    requires IsPath(g.Relation(), p) && |p| > 1 && p[0] == order[i]
    ensures p[|p| - 1] in order[..i]
    decreases |p|
  {
    assert g.Relation()(p[0], p[1]);
    assert p[1] in order[..i];
    var j :| 0 <= j < i && order[j] == p[1];
    if |p| > 2 {
      var q := p[1..];
      forall k | 0 <= k < |q| - 1
        ensures g.Relation()(q[k], q[k + 1])
      {
        assert g.Relation()(p[k + 1], p[k + 2]);
      }
      TopologicalPath(g, order, j, q);
      assert p[|p| - 1] == q[|q| - 1];
    }
  }

  /** A finished node reaches only earlier finished nodes, so no cycle. */
  lemma TopologicalNoCycle<N(!new)>(g: Graph<N>, order: seq<N>, a: N)
    requires IsTopological(g, order) && a in order
    ensures !ReachesCycle(g.Relation(), a)
  {
    var r := g.Relation();
    if ReachesCycle(r, a) {
      var c :| Reaches(r, c, c) && (c == a || Reaches(r, a, c));
      var i :| 0 <= i < |order| && order[i] == a;
      if c != a {
        var p :| Joins(r, p, a, c) && |p| > 1;
        TopologicalPath(g, order, i, p);
      }
      assert c in order;
      var k :| 0 <= k < |order| && order[k] == c;
      var q :| Joins(r, q, c, c) && |q| > 1;
      TopologicalPath(g, order, k, q);
      assert false;
    }
  }

  class CycleSearch<N(==,!new)> {
    const graph: Graph<N>
    var visiting: set<N>
    var visited: set<N>
    ghost var order: seq<N>

    ghost const universe: set<N>

    constructor (graph: Graph<N>, ghost roots: set<N>)
      ensures this.graph == graph && universe == graph.Nodes() + roots
      ensures Finished() && visiting == {} && order == []
    {
      this.graph := graph;
      universe := graph.Nodes() + roots;
      visiting, visited, order := {}, {}, [];
    }

    /** `visited` is closed under dependencies and free of cycles. */
    ghost predicate Finished()
      reads this
    {
      && IsTopological(graph, order)
      && visited == (set a | a in order)
      && forall a | a in visited :: graph.Follows(a)
    }

    /** `has_cycle` and `has_hierarchy_cycle`. */
    method HasCycle(node: N) returns (found: bool)
      requires graph.Nodes() <= universe
      requires Finished() && visiting !! visited && visiting <= universe
      requires node in universe && graph.Follows(node)
      requires forall u | u in visiting :: Reaches(graph.Relation(), u, node)
      modifies this
      ensures Finished() && old(order) <= order && old(visited) <= visited
      ensures found <==> ReachesCycle(graph.Relation(), node)
      ensures !found ==> node in visited && visiting == old(visiting) && visiting !! visited
      decreases universe - visiting
    {
      if node in visited {
        TopologicalNoCycle(graph, order, node);
        return false;
      }
      if node in visiting {
        assert Reaches(graph.Relation(), node, node);
        return true;
      }
      visiting := visiting + {node};
      var deps := graph.Deps(node);
      for i := 0 to |deps|
        invariant Finished() && old(order) <= order && old(visited) <= visited
        invariant visiting == old(visiting) + {node} && visiting !! visited
        invariant forall j | 0 <= j < i && graph.Follows(deps[j]) :: deps[j] in visited
      {
        var dep := deps[i];
        if graph.Follows(dep) {
          OneMore(node, dep);
          var inner := HasCycle(dep);
          if inner {
            CycleAbove(node, dep);
            return true;
          }
        }
      }
      visiting := visiting - {node};
      visited := visited + {node};
      ghost var before := order;
      order := order + [node];
      assert IsTopological(graph, order) by {
        forall i, b | 0 <= i < |order| && graph.Edge(order[i], b)
          ensures b in order[..i]
        {
          if i == |before| {
            assert order[..i] == before;
            var j :| 0 <= j < |deps| && deps[j] == b;
          } else {
            assert order[..i] == before[..i];
          }
        }
      }
      assert node in order;
      TopologicalNoCycle(graph, order, node);
      return false;
    }

    /** Nodes on the path reach whatever the current node depends on. */
    lemma OneMore(node: N, dep: N)
      requires graph.Edge(node, dep)
      requires forall u | u in visiting && u != node :: Reaches(graph.Relation(), u, node)
      ensures forall u | u in visiting :: Reaches(graph.Relation(), u, dep)
      ensures dep in graph.Nodes()
    {
      var r := graph.Relation();
      StepReaches(r, node, dep);
      forall u | u in visiting
        ensures Reaches(r, u, dep)
      {
        if u != node {
          ReachesTrans(r, u, node, dep);
        }
      }
    }

    lemma CycleAbove(node: N, dep: N)
      requires graph.Edge(node, dep) && ReachesCycle(graph.Relation(), dep)
      ensures ReachesCycle(graph.Relation(), node)
    {
      var r := graph.Relation();
      StepReaches(r, node, dep);
      var c :| Reaches(r, c, c) && (c == dep || Reaches(r, dep, c));
      if c != dep {
        ReachesTrans(r, node, dep, c);
      }
    }
  }

  /** `validate_comb_cycles`: search from every key and stop at the first
      cycle.  Acceptance comes with a topological order of all keys. */
  method CheckAcyclic<N(==,!new)>(deps: map<N, seq<N>>) returns (ok: bool, ghost order: seq<N>)
    ensures ok <==> Acyclic(Graph(deps, true).Relation())
    ensures ok ==> IsTopological(Graph(deps, true), order)
    ensures ok ==> forall a :: a in order <==> a in deps
  {
    var search := new CycleSearch<N>(Graph(deps, true), {});
    var r := search.graph.Relation();
    var pending := deps.Keys;
    while pending != {}
      invariant search.graph == Graph(deps, true) && search.Finished()
      invariant search.visiting == {} && pending <= deps.Keys
      invariant deps.Keys - pending <= search.visited
      decreases pending
    {
      var key :| key in pending;
      var found := search.HasCycle(key);
      if found {
        ghost var c :| Reaches(r, c, c) && (c == key || Reaches(r, key, c));
        return false, [];
      }
      pending := pending - {key};
    }
    ok, order := true, search.order;
    assert deps.Keys - pending == deps.Keys;
    assert forall a | a in order :: search.graph.Follows(a);
    assert forall a :: a in order <==> a in search.visited;
    forall a
      ensures !Reaches(r, a, a)
    {
      if Reaches(r, a, a) {
        var b := ReachesFirst(r, a, a);
        assert a in deps;
        TopologicalNoCycle(search.graph, order, a);
        assert ReachesCycle(r, a);
        assert false;
      }
    }
  }

  /** `validate_hierarchy_cycles`: every module is a root, each with an empty
      path but the finished set of the roots before it, even after a cycle was
      found.  Exactly the modules that reach a cycle are reported. */
  method CheckHierarchy<N(==,!new)>(roots: seq<N>, deps: map<N, seq<N>>) returns (bad: seq<bool>)
    ensures |bad| == |roots|
    ensures forall i | 0 <= i < |roots| ::
              bad[i] <==> ReachesCycle(Graph(deps, false).Relation(), roots[i])
  {
    var search := new CycleSearch<N>(Graph(deps, false), set a | a in roots);
    bad := [];
    for i := 0 to |roots|
      invariant search.graph == Graph(deps, false) && search.Finished() && fresh(search)
      invariant search.universe == search.graph.Nodes() + set a | a in roots
      invariant |bad| == i
      invariant forall j | 0 <= j < i ::
                  bad[j] <==> ReachesCycle(Graph(deps, false).Relation(), roots[j])
    {
      search.visiting := {};
      var found := search.HasCycle(roots[i]);
      bad := bad + [found];
    }
  }
}
