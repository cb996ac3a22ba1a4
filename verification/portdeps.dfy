/** The port-dependency analysis: which inputs of a module each output depends
    on, found by a worklist over the module's graph and, recursively, over the
    port dependencies of its instances. */
module PortDeps {
  import opened Rtl
  import opened Simulation
  import opened Paths
  import opened Depends
  import CycleCheck

  type SignalGraph = map<Signal, seq<Signal>>
  type PortMap = map<Signal, set<Signal>>

  function DepsOf(g: SignalGraph, a: Signal): seq<Signal> {
    if a in g then g[a] else []
  }

  function PortsOf(deps: PortMap, output: Signal): set<Signal> {
    if output in deps then deps[output] else {}
  }

  /** `graph.entry(a).or_default().extend(more)` */
  function Extend(g: SignalGraph, a: Signal, more: seq<Signal>): SignalGraph {
    g[a := DepsOf(g, a) + more]
  }

  /** The analysis result of a module is exact. */
  ghost predicate Exact(t: Tree, deps: PortMap) {
    forall a :: ExactAt(t, deps, a)
  }

  ghost predicate ExactAt(t: Tree, deps: PortMap, a: Signal) {
    forall b :: b in PortsOf(deps, a) <==> IsOutput(t.m, a) && IsInput(t.m, b) && PortDep(t, a, b)
  }

  predicate AssignEdge(m: Module, n: nat, a: Signal, b: Signal)
    requires n <= |m.assignments|
  {
    exists j | 0 <= j < n :: m.assignments[j].dst == a && b in AssignDeps(m.assignments[j])
  }

  predicate OutputEdge(inst: Instance, deps: PortMap, oc: Conn, n: nat, a: Signal, b: Signal)
    requires n <= |inst.inputs|
  {
    oc.parent == a
    && exists k | 0 <= k < n :: inst.inputs[k].parent == b && inst.inputs[k].port in PortsOf(deps, oc.port)
  }

  predicate InstanceAdds(inst: Instance, deps: PortMap, n: nat, a: Signal, b: Signal)
    requires n <= |inst.outputs|
  {
    exists o | 0 <= o < n :: OutputEdge(inst, deps, inst.outputs[o], |inst.inputs|, a, b)
  }

  ghost predicate InstanceEdgeAt(t: Tree, i: nat, a: Signal, b: Signal)
    requires i < |t.instances|
  {
    exists oc, ic ::
      && oc in t.instances[i].outputs && ic in t.instances[i].inputs
      && oc.parent == a && ic.parent == b
      && PortDep(t.Child(i), oc.port, ic.port)
  }

  lemma AddsIsEdge(t: Tree, i: nat, deps: PortMap, a: Signal, b: Signal)
    requires i < |t.instances| && Exact(t.Child(i), deps)
    requires InstanceAdds(t.instances[i], deps, |t.instances[i].outputs|, a, b)
    ensures InstanceEdgeAt(t, i, a, b)
  {
    var inst := t.instances[i];
    var o :| 0 <= o < |inst.outputs| && OutputEdge(inst, deps, inst.outputs[o], |inst.inputs|, a, b);
    var k :| 0 <= k < |inst.inputs| && inst.inputs[k].parent == b
             && inst.inputs[k].port in PortsOf(deps, inst.outputs[o].port);
    var oc, ic := inst.outputs[o], inst.inputs[k];
    assert oc in inst.outputs && ic in inst.inputs;
    assert ExactAt(t.Child(i), deps, oc.port);
  }

  lemma EdgeIsAdded(t: Tree, i: nat, deps: PortMap, a: Signal, b: Signal)
    requires i < |t.instances| && ConnectionsOk(t.m, t.instances[i]) && Exact(t.Child(i), deps)
    requires InstanceEdgeAt(t, i, a, b)
    ensures InstanceAdds(t.instances[i], deps, |t.instances[i].outputs|, a, b)
  {
    var inst := t.instances[i];
    var oc, ic :| oc in inst.outputs && ic in inst.inputs
                  && oc.parent == a && ic.parent == b && PortDep(t.Child(i), oc.port, ic.port);
    assert ExactAt(t.Child(i), deps, oc.port);
    IsAdded(inst, deps, oc, ic);
  }

  lemma IsAdded(inst: Instance, deps: PortMap, oc: Conn, ic: Conn)
    requires oc in inst.outputs && ic in inst.inputs && ic.port in PortsOf(deps, oc.port)
    ensures InstanceAdds(inst, deps, |inst.outputs|, oc.parent, ic.parent)
  {
    var o :| 0 <= o < |inst.outputs| && inst.outputs[o] == oc;
    var k :| 0 <= k < |inst.inputs| && inst.inputs[k] == ic;
    assert OutputEdge(inst, deps, inst.outputs[o], |inst.inputs|, oc.parent, ic.parent);
  }

  /** An exact analysis of the child contributes exactly the instance's edges. */
  lemma InstanceAddsEdges(t: Tree, i: nat, deps: PortMap)
    requires Sane(t) && i < |t.instances| && Exact(t.Child(i), deps)
    ensures forall a, b ::
              InstanceAdds(t.instances[i], deps, |t.instances[i].outputs|, a, b)
              <==> InstanceEdgeAt(t, i, a, b)
  {
    assert ConnectionsOk(t.m, t.instances[i]);
    forall a, b | InstanceAdds(t.instances[i], deps, |t.instances[i].outputs|, a, b) {
      AddsIsEdge(t, i, deps, a, b);
    }
    forall a, b | InstanceEdgeAt(t, i, a, b) {
      EdgeIsAdded(t, i, deps, a, b);
    }
  }

  /** The graph built from the assignments and the first n instances. */
  ghost predicate IsGraph(t: Tree, g: SignalGraph, n: nat)
    requires n <= |t.instances|
  {
    forall a, b :: b in DepsOf(g, a) <==>
      AssignEdge(t.m, |t.m.assignments|, a, b) || exists i | 0 <= i < n :: InstanceEdgeAt(t, i, a, b)
  }

  lemma GraphIsEdges(t: Tree, g: SignalGraph, a: Signal, b: Signal)
    requires IsGraph(t, g, |t.instances|)
    ensures b in DepsOf(g, a) <==> Edge(t, a, b)
  {
    if Edge(t, a, b) && !AssignEdge(t.m, |t.m.assignments|, a, b) {
      var i, oc, ic :| 0 <= i < |t.instances|
                       && oc in t.instances[i].outputs && ic in t.instances[i].inputs
                       && oc.parent == a && ic.parent == b
                       && PortDep(t.Child(i), oc.port, ic.port);
      assert InstanceEdgeAt(t, i, a, b);
    }
    if i :| 0 <= i < |t.instances| && InstanceEdgeAt(t, i, a, b) {
      var oc, ic :| oc in t.instances[i].outputs && ic in t.instances[i].inputs
                    && oc.parent == a && ic.parent == b
                    && PortDep(t.Child(i), oc.port, ic.port);
      InstanceEdge(t, i, oc, ic);
    }
  }

  lemma AssignEdgeStep(m: Module, j: nat, a: Signal, b: Signal)
    requires j < |m.assignments|
    ensures AssignEdge(m, j + 1, a, b) <==>
              AssignEdge(m, j, a, b)
              || (m.assignments[j].dst == a && b in AssignDeps(m.assignments[j]))
  {
    if k :| 0 <= k < j + 1 && m.assignments[k].dst == a && b in AssignDeps(m.assignments[k]) {
      assert k < j ==> AssignEdge(m, j, a, b);
    }
  }

  lemma GraphStep(t: Tree, g: SignalGraph, i: nat, after: SignalGraph)
    requires i < |t.instances| && IsGraph(t, g, i)
    requires forall a, b :: b in DepsOf(after, a) <==> b in DepsOf(g, a) || InstanceEdgeAt(t, i, a, b)
    ensures IsGraph(t, after, i + 1)
  {
  }

  method AssignmentGraph(m: Module) returns (g: SignalGraph)
    ensures forall a, b :: b in DepsOf(g, a) <==> AssignEdge(m, |m.assignments|, a, b)
  {
    g := map[];
    for j := 0 to |m.assignments|
      invariant forall a, b :: b in DepsOf(g, a) <==> AssignEdge(m, j, a, b)
    {
      var d := m.assignments[j];
      ghost var before := g;
      g := Extend(g, d.dst, AssignDeps(d));
      forall a, b
        ensures b in DepsOf(g, a) <==> AssignEdge(m, j + 1, a, b)
      {
        AssignEdgeStep(m, j, a, b);
        assert b in DepsOf(before, a) <==> AssignEdge(m, j, a, b);
      }
    }
  }

  /** The edges of one connected output. */
  method AddOutput(inst: Instance, deps: PortMap, oc: Conn, before: SignalGraph)
    returns (g: SignalGraph)
    ensures forall a, b :: b in DepsOf(g, a) <==>
              b in DepsOf(before, a) || OutputEdge(inst, deps, oc, |inst.inputs|, a, b)
  {
    g := before;
    for k := 0 to |inst.inputs|
      invariant forall a, b :: b in DepsOf(g, a) <==>
                  b in DepsOf(before, a) || OutputEdge(inst, deps, oc, k, a, b)
    {
      var ic := inst.inputs[k];
      if ic.port in PortsOf(deps, oc.port) {
        g := Extend(g, oc.parent, [ic.parent]);
      }
    }
  }

  /** `add_instance_comb_deps` */
  method AddInstance(inst: Instance, deps: PortMap, before: SignalGraph) returns (g: SignalGraph)
    ensures forall a, b :: b in DepsOf(g, a) <==>
              b in DepsOf(before, a) || InstanceAdds(inst, deps, |inst.outputs|, a, b)
  {
    g := before;
    for o := 0 to |inst.outputs|
      invariant forall a, b :: b in DepsOf(g, a) <==>
                  b in DepsOf(before, a) || InstanceAdds(inst, deps, o, a, b)
    {
      g := AddOutput(inst, deps, inst.outputs[o], g);
    }
  }

  method BuildGraph(t: Tree) returns (g: SignalGraph)
    requires Sane(t)
    ensures forall a, b :: b in DepsOf(g, a) <==> Edge(t, a, b)
    decreases t, 0
  {
    g := AssignmentGraph(t.m);
    var i := 0;
    while i < |t.instances|
      invariant i <= |t.instances| && IsGraph(t, g, i)
    {
      var deps := ModulePortDeps(t.Child(i));
      InstanceAddsEdges(t, i, deps);
      ghost var before := g;
      g := AddInstance(t.instances[i], deps, g);
      GraphStep(t, before, i, g);
      i := i + 1;
    }
    forall a, b {
      GraphIsEdges(t, g, a, b);
    }
  }

  // -------------------------------------------------------------- worklist

  ghost predicate Matches(g: SignalGraph, r: Relation<Signal>) {
    forall a, b :: b in DepsOf(g, a) <==> r(a, b)
  }

  /** A set that contains the successors of `from` and of its own elements
      contains everything `from` reaches. */
  lemma {:induction false} ClosedCovers(r: Relation<Signal>, from: Signal, seen: set<Signal>, p: seq<Signal>)
    requires IsPath(r, p) && p[0] == from && |p| > 1
    requires forall a, b | (a == from || a in seen) && r(a, b) :: b in seen
    ensures p[|p| - 1] in seen
    decreases |p|
  {
    var k := |p| - 2;
    assert r(p[k], p[k + 1]);
    if k > 0 {
      var q := p[..k + 1];
      forall i | 0 <= i < |q| - 1
        ensures r(q[i], q[i + 1])
      {
        assert r(p[i], p[i + 1]);
      }
      ClosedCovers(r, from, seen, q);
    }
  }

  /** What the worklist keeps: seen signals are reached, and the successors of
      every seen signal that is not waiting are seen. */
  ghost predicate Working(r: Relation<Signal>, from: Signal, stack: seq<Signal>, seen: set<Signal>) {
    && (forall b | b in seen :: Reaches(r, from, b))
    && (forall a | a in stack :: a == from || a in seen)
    && (forall a, b | (a == from || a in seen) && r(a, b) :: a in stack || b in seen)
  }

  /** Everything a signal reaches: pop a node, visit its dependencies, push the
      unseen ones. */
  method Reached(g: SignalGraph, from: Signal, ghost r: Relation<Signal>) returns (seen: set<Signal>)
    requires Matches(g, r)
    ensures forall b :: b in seen <==> Reaches(r, from, b)
  {
    ghost var universe := set a, b | a in g && b in g[a] :: b;
    var stack := [from];
    seen := {};
    while stack != []
      invariant seen <= universe && Working(r, from, stack, seen)
      decreases |universe - seen|, |stack|
    {
      var node, rest := stack[|stack| - 1], stack[..|stack| - 1];
      ghost var before, had := stack, seen;
      stack, seen := Visit(g, node, rest, seen);
      Visited(g, r, from, node, before, had, stack, seen);
      Progresses(universe, had, seen);
    }
    forall b | Reaches(r, from, b)
      ensures b in seen
    {
      var p :| Joins(r, p, from, b) && |p| > 1;
      ClosedCovers(r, from, seen, p);
    }
  }

  /** One popped node. */
  method Visit(g: SignalGraph, node: Signal, rest: seq<Signal>, had: set<Signal>)
    returns (stack: seq<Signal>, seen: set<Signal>)
    ensures seen == had + (set b | b in DepsOf(g, node))
    ensures rest <= stack && forall a | a in stack :: a in rest || a in seen
    ensures forall a | a in seen && a !in had :: a in stack
    ensures seen == had ==> stack == rest
  {
    var deps := DepsOf(g, node);
    stack, seen := rest, had;
    for k := 0 to |deps|
      invariant seen == had + (set b | b in deps[..k])
      invariant rest <= stack && forall a | a in stack :: a in rest || a in seen
      invariant forall a | a in seen && a !in had :: a in stack
      invariant seen == had ==> stack == rest
    {
      assert deps[..k + 1] == deps[..k] + [deps[k]];
      if deps[k] !in seen {
        seen := seen + {deps[k]};
        stack := stack + [deps[k]];
      }
    }
    assert deps[..|deps|] == deps;
  }

  lemma Visited(g: SignalGraph, r: Relation<Signal>, from: Signal, node: Signal,
                before: seq<Signal>, had: set<Signal>, stack: seq<Signal>, seen: set<Signal>)
    requires Matches(g, r) && before != [] && Working(r, from, before, had)
    requires before[|before| - 1] == node
    requires seen == had + (set b | b in DepsOf(g, node))
    requires before[..|before| - 1] <= stack
    requires forall a | a in stack :: a in before[..|before| - 1] || a in seen
    requires forall a | a in seen && a !in had :: a in stack
    ensures Working(r, from, stack, seen)
  {
    var n := |before| - 1;
    forall b | b in DepsOf(g, node)
      ensures Reaches(r, from, b)
    {
      StepReaches(r, node, b);
      if node != from {
        ReachesTrans(r, from, node, b);
      }
    }
    forall a | a in stack
      ensures a == from || a in seen
    {
      if a in before[..n] {
        assert a in before;
      }
    }
    forall a, b | (a == from || a in seen) && r(a, b)
      ensures a in stack || b in seen
    {
      if a in before && a != node {
        var j :| 0 <= j < |before| && before[j] == a;
        assert before[..n][j] == stack[j];
      }
    }
  }

  lemma Progresses(universe: set<Signal>, had: set<Signal>, seen: set<Signal>)
    requires had <= seen <= universe
    ensures seen == had || |universe - seen| < |universe - had|
  {
    if seen != had {
      var x :| x in seen && x !in had;
      assert universe - had == (universe - seen) + (seen - had);
    }
  }

  /** `module_comb_port_deps` */
  method ModulePortDeps(t: Tree) returns (deps: PortMap)
    requires Sane(t)
    ensures Exact(t, deps)
    decreases t, 1
  {
    var g := BuildGraph(t);
    deps := map[];
    var i := 0;
    while i < |t.m.signals|
      invariant i <= |t.m.signals|
      invariant forall a | a in deps :: t.m.Owns(a) && a.id < i
      invariant forall k | 0 <= k < i :: ExactAt(t, deps, t.m.Handle(k))
    {
      var out := t.m.Handle(i);
      ghost var before := deps;
      if t.m.signals[i].kind.Output? {
        var seen := Reached(g, out, Edges(t));
        var reached := set b | b in seen && IsInput(t.m, b);
        if reached != {} {
          deps := deps[out := reached];
        }
        assert PortsOf(deps, out) == reached;
      }
      assert ExactAt(t, deps, out);
      forall k | 0 <= k < i
        ensures ExactAt(t, deps, t.m.Handle(k))
      {
        assert ExactAt(t, before, t.m.Handle(k));
        assert PortsOf(deps, t.m.Handle(k)) == PortsOf(before, t.m.Handle(k));
      }
      i := i + 1;
    }
    forall a
      ensures ExactAt(t, deps, a)
    {
      if t.m.Owns(a) {
        assert a == t.m.Handle(a.id);
      }
    }
  }

  // ----------------------------------------------------------- cycle check

  /** Nodes on a cycle all have dependencies, so following only keys loses no
      cycle. */
  lemma KeysOnCycle(g: SignalGraph, r: Relation<Signal>)
    requires Matches(g, r)
    ensures Acyclic(r) <==> Acyclic(CycleCheck.Graph(g, true).Relation())
  {
    var keyed := CycleCheck.Graph(g, true).Relation();
    if Acyclic(r) {
      AcyclicSub(keyed, r);
    } else {
      var a :| Reaches(r, a, a);
      var p :| Joins(r, p, a, a) && |p| > 1;
      forall i | 0 <= i < |p| - 1
        ensures keyed(p[i], p[i + 1])
      {
        assert r(p[i], p[i + 1]);
        if i + 2 < |p| {
          assert r(p[i + 1], p[i + 2]);
        } else {
          assert r(p[0], p[1]);
        }
      }
      assert Joins(keyed, p, a, a);
      assert Reaches(keyed, a, a);
    }
  }

  /** `validate_comb_cycles`: a module passes exactly when its graph is acyclic. */
  method ValidateCombCycles(t: Tree) returns (ok: bool)
    requires Sane(t)
    ensures ok <==> Acyclic(Edges(t))
  {
    var g := BuildGraph(t);
    KeysOnCycle(g, Edges(t));
    ghost var order;
    ok, order := CycleCheck.CheckAcyclic(g);
  }
}
