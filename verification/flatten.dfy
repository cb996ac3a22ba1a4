/** The port-precise cycle check is compositional: port dependencies are paths
    of the fully flattened graph, and every level is acyclic exactly when the
    flattened graph is. */
module Flatten {
  import opened Rtl
  import opened Simulation
  import opened Paths
  import opened Depends
  import PortDeps

  /** A signal of one instance of the hierarchy. */
  datatype Node = Node(path: seq<nat>, signal: Signal)
  {
    /** The same signal seen from the parent of instance k. */
    function Up(k: nat): Node { Node([k] + path, signal) }

    /** The same signal seen from inside the instance it is in. */
    function Down(): Node
      requires path != []
    {
      Node(path[1..], signal)
    }
  }

  function Top(s: Signal): Node { Node([], s) }

  /** One edge of the flattened graph: an assignment of some instance, a parent
      signal driven by an output port, or an input port driven by a parent
      signal. */
  ghost predicate FlatEdge(t: Tree, a: Node, b: Node)
    decreases t
  {
    if a.path == [] && b.path == [] then
      exists j :: 0 <= j < |t.m.assignments| && t.m.assignments[j].dst == a.signal
                  && b.signal in AssignDeps(t.m.assignments[j])
    else if a.path == [] then
      |b.path| == 1 && b.path[0] < |t.instances|
      && Conn(b.signal, a.signal) in t.instances[b.path[0]].outputs
    else if b.path == [] then
      |a.path| == 1 && a.path[0] < |t.instances|
      && Conn(a.signal, b.signal) in t.instances[a.path[0]].inputs
    else
      a.path[0] == b.path[0] < |t.instances| && FlatEdge(t.Child(a.path[0]), a.Down(), b.Down())
  }

  ghost function FlatEdges(t: Tree): Relation<Node> {
    (a, b) => FlatEdge(t, a, b)
  }

  // ------------------------------------------------------------ path surgery

  lemma PathPart<N(!new)>(r: Relation<N>, p: seq<N>, i: nat, j: nat)
    requires IsPath(r, p) && i < j <= |p|
    ensures IsPath(r, p[i..j])
  {
    forall k | 0 <= k < |p[i..j]| - 1
      ensures r(p[i..j][k], p[i..j][k + 1])
    {
      assert r(p[i + k], p[i + k + 1]);
    }
  }

  /** Two places on a path. */
  lemma PathReaches<N(!new)>(r: Relation<N>, p: seq<N>, i: nat, j: nat)
    requires IsPath(r, p) && i < j < |p|
    ensures Reaches(r, p[i], p[j])
  {
    PathPart(r, p, i, j + 1);
    assert Joins(r, p[i..j + 1], p[i], p[j]);
  }

  /** A cycle can start at any of its nodes. */
  lemma Rotate<N(!new)>(r: Relation<N>, p: seq<N>, i: nat)
    requires IsPath(r, p) && |p| > 1 && p[0] == p[|p| - 1] && i < |p|
    ensures Reaches(r, p[i], p[i])
  {
    var last := |p| - 1;
    if i == 0 || i == last {
      PathReaches(r, p, 0, last);
    } else {
      PathReaches(r, p, i, last);
      PathReaches(r, p, 0, i);
      ReachesTrans(r, p[i], p[0], p[i]);
    }
  }

  // ---------------------------------------------------- from a child upwards

  lemma UpDown(n: Node, k: nat)
    ensures n.Up(k).path != [] && n.Up(k).path[0] == k && n.Up(k).Down() == n
  {
  }

  lemma UpEdge(t: Tree, k: nat, a: Node, b: Node)
    requires k < |t.instances| && FlatEdge(t.Child(k), a, b)
    ensures FlatEdge(t, a.Up(k), b.Up(k))
  {
    UpDown(a, k);
    UpDown(b, k);
  }

  lemma UpReaches(t: Tree, k: nat, a: Node, b: Node)
    requires k < |t.instances| && Reaches(FlatEdges(t.Child(k)), a, b)
    ensures Reaches(FlatEdges(t), a.Up(k), b.Up(k))
  {
    var p: seq<Node> :| Joins(FlatEdges(t.Child(k)), p, a, b) && |p| > 1;
    var q := seq(|p|, i requires 0 <= i < |p| => p[i].Up(k));
    forall i | 0 <= i < |q| - 1
      ensures FlatEdges(t)(q[i], q[i + 1])
    {
      assert FlatEdges(t.Child(k))(p[i], p[i + 1]);
      UpEdge(t, k, p[i], p[i + 1]);
    }
    assert Joins(FlatEdges(t), q, a.Up(k), b.Up(k));
  }

  // --------------------------------------------------- levels to flat graph

  lemma {:induction false} EdgeIsFlat(t: Tree, a: Signal, b: Signal)
    requires Edge(t, a, b)
    ensures Reaches(FlatEdges(t), Top(a), Top(b))
    decreases t, 0
  {
    var r := FlatEdges(t);
    if j :| 0 <= j < |t.m.assignments| && t.m.assignments[j].dst == a
            && b in AssignDeps(t.m.assignments[j]) {
      StepReaches(r, Top(a), Top(b));
    } else {
      var i, oc, ic :| 0 <= i < |t.instances|
                       && oc in t.instances[i].outputs && ic in t.instances[i].inputs
                       && oc.parent == a && ic.parent == b
                       && PortDep(t.Child(i), oc.port, ic.port);
      PortDepIsPath(t.Child(i), oc.port, ic.port);
      UpReaches(t, i, Top(oc.port), Top(ic.port));
      Crossing(t, i, oc, ic);
    }
  }

  /** Into an instance at an output, through it, and out at an input. */
  lemma Crossing(t: Tree, i: nat, oc: Conn, ic: Conn)
    requires i < |t.instances| && oc in t.instances[i].outputs && ic in t.instances[i].inputs
    requires Reaches(FlatEdges(t), Top(oc.port).Up(i), Top(ic.port).Up(i))
    ensures Reaches(FlatEdges(t), Top(oc.parent), Top(ic.parent))
  {
    var r := FlatEdges(t);
    var enter, leave := Top(oc.port).Up(i), Top(ic.port).Up(i);
    assert Conn(oc.port, oc.parent) == oc && Conn(ic.port, ic.parent) == ic;
    assert r(Top(oc.parent), enter) && r(leave, Top(ic.parent));
    StepReaches(r, Top(oc.parent), enter);
    StepReaches(r, leave, Top(ic.parent));
    ReachesTrans(r, Top(oc.parent), enter, leave);
    ReachesTrans(r, Top(oc.parent), leave, Top(ic.parent));
  }

  lemma {:induction false} PortDepIsPath(t: Tree, a: Signal, b: Signal)
    requires PortDep(t, a, b)
    ensures Reaches(FlatEdges(t), Top(a), Top(b))
    decreases t, 2
  {
    var p :| Joins(Edges(t), p, a, b) && |p| > 1;
    LevelPathIsFlat(t, p);
  }

  lemma {:induction false} LevelPathIsFlat(t: Tree, p: seq<Signal>)
    requires IsPath(Edges(t), p) && |p| > 1
    ensures Reaches(FlatEdges(t), Top(p[0]), Top(p[|p| - 1]))
    decreases t, 1, |p|
  {
    assert Edges(t)(p[0], p[1]);
    EdgeIsFlat(t, p[0], p[1]);
    if |p| > 2 {
      PathPart(Edges(t), p, 1, |p|);
      LevelPathIsFlat(t, p[1..]);
      ReachesTrans(FlatEdges(t), Top(p[0]), Top(p[1]), Top(p[|p| - 1]));
    }
  }

  // --------------------------------------------------- flat graph to levels

  /** A stretch of a flat path that stays below instance k, seen from inside. */
  lemma {:induction false} Inside(t: Tree, p: seq<Node>, k: nat)
    requires IsPath(FlatEdges(t), p) && |p| > 1
    requires forall i | 0 <= i < |p| :: p[i].path != []
    requires p[0].path[0] == k
    ensures k < |t.instances| && p[|p| - 1].path[0] == k
    ensures Reaches(FlatEdges(t.Child(k)), p[0].Down(), p[|p| - 1].Down())
    decreases |p|
  {
    assert FlatEdges(t)(p[0], p[1]);
    var r := FlatEdges(t.Child(k));
    StepReaches(r, p[0].Down(), p[1].Down());
    if |p| > 2 {
      PathPart(FlatEdges(t), p, 1, |p|);
      Inside(t, p[1..], k);
      ReachesTrans(r, p[0].Down(), p[1].Down(), p[|p| - 1].Down());
    }
  }

  /** The first return to the top level. */
  lemma FirstReturn(p: seq<Node>) returns (j: nat)
    requires |p| > 1 && p[|p| - 1].path == []
    ensures 1 <= j < |p| && p[j].path == []
    ensures forall i | 1 <= i < j :: p[i].path != []
  {
    j := 1;
    while p[j].path != []
      invariant 1 <= j < |p| && forall i | 1 <= i < j :: p[i].path != []
      decreases |p| - j
    {
      j := j + 1;
    }
  }

  /** A flat path between signals of one level is a path of that level. */
  lemma {:induction false} FlatIsLevel(t: Tree, p: seq<Node>)
    requires Sane(t) && IsPath(FlatEdges(t), p) && |p| > 1
    requires p[0].path == [] && p[|p| - 1].path == []
    ensures Reaches(Edges(t), p[0].signal, p[|p| - 1].signal)
    decreases t, |p|, 1
  {
    var j := FirstReturn(p);
    var head, tail := p[0..j + 1], p[j..|p|];
    PathPart(FlatEdges(t), p, 0, j + 1);
    assert |head| == j + 1 && head[0] == p[0] && head[j] == p[j] == tail[0];
    assert tail[|tail| - 1] == p[|p| - 1];
    Excursion(t, head);
    if j + 1 < |p| {
      PathPart(FlatEdges(t), p, j, |p|);
      FlatIsLevel(t, tail);
      ReachesTrans(Edges(t), p[0].signal, p[j].signal, p[|p| - 1].signal);
    }
  }

  /** A flat path that leaves its level once, or not at all. */
  lemma {:induction false} Excursion(t: Tree, p: seq<Node>)
    requires Sane(t) && IsPath(FlatEdges(t), p) && |p| > 1
    requires p[0].path == [] && p[|p| - 1].path == []
    requires forall i | 1 <= i < |p| - 1 :: p[i].path != []
    ensures Reaches(Edges(t), p[0].signal, p[|p| - 1].signal)
    decreases t, |p|, 0
  {
    var last := |p| - 1;
    var r, a, b := FlatEdges(t), p[0], p[last];
    assert r(p[0], p[1]) && r(p[last - 1], p[last]);
    if last == 1 {
      assert Edge(t, a.signal, b.signal);
    } else {
      var k := p[1].path[0];
      var inner := p[1..last];
      PathPart(r, p, 1, last);
      InnerEnds(t, inner, k);
      var oc, ic := Conn(p[1].signal, a.signal), Conn(p[last - 1].signal, b.signal);
      assert ConnectionsOk(t.m, t.instances[k]);
      assert oc in t.instances[k].outputs;
      assert inner[0] == p[1] && inner[|inner| - 1] == p[last - 1];
      if |inner| > 1 {
        assert inner[0].Down() == Top(oc.port) && inner[|inner| - 1].Down() == Top(ic.port);
        var q :| Joins(FlatEdges(t.Child(k)), q, Top(oc.port), Top(ic.port)) && |q| > 1;
        FlatIsLevel(t.Child(k), q);
      }
      assert ic in t.instances[k].inputs;
      InstanceEdge(t, k, oc, ic);
    }
    StepReaches(Edges(t), a.signal, b.signal);
  }

  /** A path below the top stays in one instance. */
  lemma InnerEnds(t: Tree, p: seq<Node>, k: nat)
    requires IsPath(FlatEdges(t), p) && |p| > 0
    requires forall i | 0 <= i < |p| :: p[i].path != []
    requires p[0].path[0] == k
    ensures p[|p| - 1].path[0] == k
    ensures |p| > 1 ==> k < |t.instances| && Reaches(FlatEdges(t.Child(k)), p[0].Down(), p[|p| - 1].Down())
  {
    if |p| > 1 {
      Inside(t, p, k);
    }
  }

  /** Port dependencies are exactly the paths of the flattened graph. */
  lemma PortDepIsFlatPath(t: Tree, output: Signal, input: Signal)
    requires Sane(t)
    ensures PortDep(t, output, input) <==> Reaches(FlatEdges(t), Top(output), Top(input))
  {
    if PortDep(t, output, input) {
      PortDepIsPath(t, output, input);
    }
    if Reaches(FlatEdges(t), Top(output), Top(input)) {
      var p :| Joins(FlatEdges(t), p, Top(output), Top(input)) && |p| > 1;
      FlatIsLevel(t, p);
    }
  }

  // ------------------------------------------------------------ acyclicity

  /** Every level passes the cycle check. */
  ghost predicate LevelsAcyclic(t: Tree)
    decreases t
  {
    Acyclic(Edges(t)) && forall i | 0 <= i < |t.instances| :: LevelsAcyclic(t.Child(i))
  }

  lemma {:induction false} FlatCycle(t: Tree, p: seq<Node>)
    requires Sane(t) && IsPath(FlatEdges(t), p) && |p| > 1 && p[0] == p[|p| - 1]
    ensures !LevelsAcyclic(t)
    decreases t
  {
    var r := FlatEdges(t);
    if i :| 0 <= i < |p| && p[i].path == [] {
      Rotate(r, p, i);
      var q :| Joins(r, q, p[i], p[i]) && |q| > 1;
      FlatIsLevel(t, q);
      assert Reaches(Edges(t), p[i].signal, p[i].signal);
    } else {
      var k := p[0].path[0];
      Inside(t, p, k);
      var q :| Joins(FlatEdges(t.Child(k)), q, p[0].Down(), p[0].Down()) && |q| > 1;
      FlatCycle(t.Child(k), q);
    }
  }

  lemma {:induction false} LevelCycle(t: Tree)
    requires !LevelsAcyclic(t)
    ensures !Acyclic(FlatEdges(t))
    decreases t
  {
    if a :| Reaches(Edges(t), a, a) {
      PortDepIsPath(t, a, a);
    } else {
      var i :| 0 <= i < |t.instances| && !LevelsAcyclic(t.Child(i));
      LevelCycle(t.Child(i));
      var n :| Reaches(FlatEdges(t.Child(i)), n, n);
      UpReaches(t, i, n, n);
    }
  }

  /** All the per-module checks pass exactly when the flattened graph is
      acyclic. */
  lemma CheckIsCompositional(t: Tree)
    requires Sane(t)
    ensures LevelsAcyclic(t) <==> Acyclic(FlatEdges(t))
  {
    if !LevelsAcyclic(t) {
      LevelCycle(t);
    }
    if n :| Reaches(FlatEdges(t), n, n) {
      var p :| Joins(FlatEdges(t), p, n, n) && |p| > 1;
      FlatCycle(t, p);
    }
  }

  /** The cycle check run on every module of a design. */
  method ValidateLevels(t: Tree) returns (ok: bool)
    requires Sane(t)
    ensures ok <==> Acyclic(FlatEdges(t))
  {
    ok := ValidateEach(t);
    CheckIsCompositional(t);
  }

  method ValidateEach(t: Tree) returns (ok: bool)
    requires Sane(t)
    ensures ok <==> LevelsAcyclic(t)
    decreases t
  {
    ok := PortDeps.ValidateCombCycles(t);
    var i := 0;
    while i < |t.instances|
      invariant i <= |t.instances|
      invariant ok <==> Acyclic(Edges(t)) && forall k | 0 <= k < i :: LevelsAcyclic(t.Child(k))
    {
      var fine := ValidateEach(t.Child(i));
      ok := ok && fine;
      i := i + 1;
    }
  }
}
