/** The flattened design passes the checks: one driver per signal, no cycle, and
    so it settles. */
module FlatSane {
  import opened Rtl
  import opened Simulation
  import opened Paths
  import opened Depends
  import opened Settling
  import opened Runs
  import opened Flatten
  import opened FlatDesign
  import opened FlatEval
  import Ranking

  /** All expressions and resets of all modules stay inside their module. */
  predicate AllClosed(t: Tree)
    decreases t
  {
    && (forall a | a in t.m.assignments :: Closed(t.m, a.expr))
    && (forall w | w in t.m.memoryWrites :: WriteClosed(t.m, w))
    && (forall i | 0 <= i < |t.m.signals| && t.m.signals[i].kind.Reg? :: RegClosed(t.m, t.m.signals[i]))
    && (forall i | 0 <= i < |t.instances| :: AllClosed(t.Child(i)))
  }

  predicate WriteClosed(m: Module, w: MemoryWrite) {
    m.Owns(w.mem) && Closed(m, w.enable) && Closed(m, w.addr) && Closed(m, w.data)
  }

  predicate RegClosed(m: Module, info: SignalInfo)
    requires info.kind.Reg?
  {
    && (info.kind.reset.Some? ==> m.Owns(info.kind.reset.value.signal))
    && (info.kind.next.Some? ==> Closed(m, info.kind.next.value))
  }

  /** What the flattening theorem asks of a hierarchy. */
  ghost predicate Flattenable(t: Tree) {
    Sane(t) && Pure(t) && Levelled(t) && LevelsAcyclic(t) && AllClosed(t)
  }

  lemma {:induction false} LevelAt(t: Tree, p: Path)
    requires Sane(t) && Pure(t) && AllClosed(t) && ValidPath(t, p)
    ensures Sane(At(t, p)) && Pure(At(t, p)) && AllClosed(At(t, p))
    decreases |p|
  {
    if p != [] {
      LevelAt(t.Child(p[0]), p[1..]);
    }
  }

  lemma {:induction false} ChildPath(t: Tree, p: Path, i: nat)
    requires ValidPath(t, p) && i < |At(t, p).instances|
    ensures ValidPath(t, p + [i]) && At(t, p + [i]) == At(t, p).Child(i)
    decreases |p|
  {
    if p == [] {
      assert p + [i] == [i] && [i][1..] == [];
    } else {
      ChildPath(t.Child(p[0]), p[1..], i);
      assert (p + [i])[1..] == p[1..] + [i];
    }
  }

  // ------------------------------------------------------------- one driver

  lemma ConnectionKinds(t: Tree, p: Path, i: nat)
    requires Sane(t) && Pure(t) && AllClosed(t) && ValidPath(t, p) && i < |At(t, p).instances|
    ensures ConnectionsOk(At(t, p).m, At(t, p).instances[i])
  {
    LevelAt(t, p);
  }

  /** Driven signals exist, and drivers of a child's inputs are told apart from
      the drivers of everything else by the kind of the signal. */
  lemma TargetKind(t: Tree, d: Driver)
    requires Sane(t) && Pure(t) && AllClosed(t) && IsDriver(t, d)
    ensures
      var n := Target(t, d);
      && IsNode(t, n)
      && (d.ByInput? ==> n.path != [] && IsInput(At(t, n.path).m, n.signal))
      && (!d.ByInput? ==> Drivable(At(t, n.path).m, n.signal))
  {
    LevelAt(t, d.path);
    var u := At(t, d.path);
    match d
    case ByAssign(p, j) =>
      assert Drivable(u.m, u.m.assignments[j].dst);
    case ByOutput(p, i, o) =>
      ConnectionKinds(t, p, i);
      assert u.instances[i].outputs[o] in u.instances[i].outputs;
    case ByInput(p, i, k) =>
      ConnectionKinds(t, p, i);
      ChildPath(t, p, i);
      assert u.instances[i].inputs[k] in u.instances[i].inputs;
  }

  lemma LastOf(p: Path, i: nat, q: Path, k: nat)
    requires p + [i] == q + [k]
    ensures p == q && i == k
  {
    assert (p + [i])[|p|] == i && (q + [k])[|q|] == k;
    assert p == (p + [i])[..|p|] && q == (q + [k])[..|q|];
  }

  lemma InputDriver(t: Tree, d: Driver, e: Driver)
    requires Sane(t) && Pure(t) && AllClosed(t) && IsDriver(t, d) && IsDriver(t, e)
    requires d.ByInput? && e.ByInput? && Target(t, d) == Target(t, e)
    ensures d == e
  {
    LastOf(d.path, d.inst, e.path, e.inst);
    ConnectionKinds(t, d.path, d.inst);
  }

  lemma OtherDriver(t: Tree, d: Driver, e: Driver)
    requires Sane(t) && Pure(t) && AllClosed(t) && IsDriver(t, d) && IsDriver(t, e)
    requires !d.ByInput? && !e.ByInput? && Target(t, d) == Target(t, e)
    ensures d == e
  {
    LevelAt(t, d.path);
    var u := At(t, d.path);
    assert OneDriver(u);
    if d.ByOutput? {
      assert u.instances[d.inst].outputs[d.index] in u.instances[d.inst].outputs;
    }
    if e.ByOutput? {
      assert u.instances[e.inst].outputs[e.index] in u.instances[e.inst].outputs;
    }
  }

  /** A flat signal has one driver. */
  lemma UniqueDriver(t: Tree, d: Driver, e: Driver)
    requires Sane(t) && Pure(t) && AllClosed(t) && IsDriver(t, d) && IsDriver(t, e)
    requires Target(t, d) == Target(t, e)
    ensures d == e
  {
    TargetKind(t, d);
    TargetKind(t, e);
    if d.ByInput? && e.ByInput? {
      InputDriver(t, d, e);
    } else if !d.ByInput? && !e.ByInput? {
      OtherDriver(t, d, e);
    }
  }

  lemma FlatTarget(t: Tree, k: nat) returns (n: Node)
    requires Sane(t) && Pure(t) && AllClosed(t) && k < |FlatModule(t).assignments|
    ensures k < |Drivers(t)| && IsDriver(t, Drivers(t)[k]) && n == Target(t, Drivers(t)[k])
    ensures IsNode(t, n) && FlatModule(t).assignments[k].dst == Moved(t, n.path, n.signal)
  {
    FlatAssignment(t, k);
    n := Target(t, Drivers(t)[k]);
    TargetKind(t, Drivers(t)[k]);
  }

  lemma FlatOneDriver(t: Tree, j: nat, k: nat)
    requires Sane(t) && Pure(t) && AllClosed(t) && j < k < |FlatModule(t).assignments|
    ensures FlatModule(t).assignments[j].dst != FlatModule(t).assignments[k].dst
  {
    var a := FlatTarget(t, j);
    var b := FlatTarget(t, k);
    if FlatModule(t).assignments[j].dst == FlatModule(t).assignments[k].dst {
      MovedInjective(t, a, b);
      UniqueDriver(t, Drivers(t)[j], Drivers(t)[k]);
    }
  }

  lemma FlatDrivable(t: Tree, k: nat)
    requires Sane(t) && Pure(t) && AllClosed(t) && k < |FlatModule(t).assignments|
    ensures Drivable(FlatModule(t), FlatModule(t).assignments[k].dst)
  {
    var n := FlatTarget(t, k);
    TargetKind(t, Drivers(t)[k]);
    FlatSignal(t, n);
  }

  lemma FlatIsSane(t: Tree)
    requires Sane(t) && Pure(t) && AllClosed(t)
    ensures Sane(FlatTree(t))
  {
    forall k | 0 <= k < |FlatModule(t).assignments|
      ensures Drivable(FlatModule(t), FlatModule(t).assignments[k].dst)
    {
      FlatDrivable(t, k);
    }
    forall j, k | 0 <= j < k < |FlatModule(t).assignments|
      ensures FlatModule(t).assignments[j].dst != FlatModule(t).assignments[k].dst
    {
      FlatOneDriver(t, j, k);
    }
  }

  // ------------------------------------------------------------------ purity

  /** A renamed assignment is a hold-mux only if the original is. */
  lemma NoHoldMoved(t: Tree, p: Path, m: Module, b: Assignment)
    requires ValidPath(t, p) && m == At(t, p).m && m.Owns(b.dst) && Closed(m, b.expr) && !IsHold(b)
    ensures !IsHold(Assignment(Moved(t, p, b.dst), MovedExpr(t, p, b.expr)))
  {
    if b.expr.Mux? && b.expr.elseExpr.Ref? {
      var x := b.expr.elseExpr.signal;
      assert x in ExprDeps(b.expr);
      if Moved(t, p, x) == Moved(t, p, b.dst) {
        MovedInjective(t, Node(p, x), Node(p, b.dst));
      }
    }
  }

  lemma NoHold(t: Tree, k: nat)
    requires Sane(t) && Pure(t) && AllClosed(t) && k < |FlatModule(t).assignments|
    ensures !IsHold(FlatModule(t).assignments[k])
  {
    FlatAssignment(t, k);
    var d := Drivers(t)[k];
    if d.ByAssign? {
      LevelAt(t, d.path);
      AssignClosed(At(t, d.path), d.index);
      NoHoldMoved(t, d.path, At(t, d.path).m, At(t, d.path).m.assignments[d.index]);
    }
  }

  lemma AssignClosed(u: Tree, j: nat)
    requires Sane(u) && Pure(u) && AllClosed(u) && j < |u.m.assignments|
    ensures
      var b := u.m.assignments[j];
      u.m.Owns(b.dst) && Closed(u.m, b.expr) && !IsHold(b)
  {
    assert u.m.assignments[j] in u.m.assignments;
    assert Drivable(u.m, u.m.assignments[j].dst);
  }

  lemma MovedAsync(t: Tree, n: Node)
    requires IsNode(t, n) && !HasAsync(At(t, n.path).m.signals[n.signal.id])
    ensures !HasAsync(MovedInfo(t, n))
  {
  }

  lemma FlatAsync(t: Tree, k: nat)
    requires Sane(t) && Pure(t) && AllClosed(t) && k < |FlatModule(t).signals|
    ensures !HasAsync(FlatModule(t).signals[k])
  {
    NodeAt(t, k);
    var n := Nodes(t)[k];
    LevelAt(t, n.path);
    NoAsync(At(t, n.path), n.signal.id);
    MovedAsync(t, n);
  }

  lemma NoAsync(u: Tree, k: nat)
    requires Pure(u) && k < |u.m.signals|
    ensures !HasAsync(u.m.signals[k])
  {
  }

  lemma FlatIsPure(t: Tree)
    requires Sane(t) && Pure(t) && AllClosed(t)
    ensures Pure(FlatTree(t))
  {
    forall k | 0 <= k < |FlatModule(t).assignments|
      ensures !IsHold(FlatModule(t).assignments[k])
    {
      NoHold(t, k);
    }
    forall k | 0 <= k < |FlatModule(t).signals|
      ensures !HasAsync(FlatModule(t).signals[k])
    {
      FlatAsync(t, k);
    }
  }

  // ---------------------------------------------------------------- acyclic

  /** An edge of one level is an edge of the flattened graph, wherever the level
      is. */
  lemma {:induction false} EdgeBelow(t: Tree, p: Path, a: Node, b: Node)
    requires ValidPath(t, p) && FlatEdge(At(t, p), a, b)
    ensures FlatEdge(t, Node(p + a.path, a.signal), Node(p + b.path, b.signal))
    decreases |p|
  {
    if p == [] {
      assert [] + a.path == a.path && [] + b.path == b.path;
    } else {
      EdgeBelow(t.Child(p[0]), p[1..], a, b);
      UpEdge(t, p[0], Node(p[1..] + a.path, a.signal), Node(p[1..] + b.path, b.signal));
      assert [p[0]] + (p[1..] + a.path) == p + a.path && [p[0]] + (p[1..] + b.path) == p + b.path;
    }
  }

  ghost function NodeOf(t: Tree, x: Signal): Node {
    if x.id < |Nodes(t)| then Nodes(t)[x.id] else Top(x)
  }

  lemma NodeOfMoved(t: Tree, n: Node)
    requires IsNode(t, n)
    ensures NodeOf(t, Moved(t, n.path, n.signal)) == n
  {
    assert n == Node(n.path, n.signal);
  }

  lemma FlatEdgeOf(t: Tree, a: Signal, b: Signal)
    requires Sane(t) && Pure(t) && AllClosed(t) && Edge(FlatTree(t), a, b)
    ensures FlatEdge(t, NodeOf(t, a), NodeOf(t, b))
  {
    var m := FlatModule(t);
    var k :| 0 <= k < |m.assignments| && m.assignments[k].dst == a && b in AssignDeps(m.assignments[k]);
    var n := FlatTarget(t, k);
    NodeOfMoved(t, n);
    NoHold(t, k);
    assert b in ExprDeps(m.assignments[k].expr);
    FlatAssignment(t, k);
    DriverEdge(t, Drivers(t)[k], b);
  }

  lemma DriverEdge(t: Tree, d: Driver, b: Signal)
    requires Sane(t) && Pure(t) && AllClosed(t) && IsDriver(t, d) && b in ExprDeps(DriverExpr(t, d))
    ensures FlatEdge(t, Target(t, d), NodeOf(t, b))
  {
    LevelAt(t, d.path);
    match d
    case ByAssign(p, j) => AssignDriverEdge(t, d, b);
    case ByOutput(p, i, o) => OutputDriverEdge(t, d, b);
    case ByInput(p, i, k) => InputDriverEdge(t, d, b);
  }

  lemma AssignDriverEdge(t: Tree, d: Driver, b: Signal)
    requires Sane(t) && Pure(t) && AllClosed(t) && IsDriver(t, d) && d.ByAssign?
    requires b in ExprDeps(DriverExpr(t, d))
    ensures FlatEdge(t, Target(t, d), NodeOf(t, b))
  {
    LevelAt(t, d.path);
    var u := At(t, d.path);
    var a := u.m.assignments[d.index];
    var x := DepsMoved(t, d.path, a.expr, b);
    assert a in u.m.assignments && Closed(u.m, a.expr);
    NodeOfMoved(t, Node(d.path, x));
    assert !IsHold(a) && x in AssignDeps(a);
    assert FlatEdge(u, Top(a.dst), Top(x));
    EdgeBelow(t, d.path, Top(a.dst), Top(x));
    assert d.path + [] == d.path;
  }

  lemma OutputDriverEdge(t: Tree, d: Driver, b: Signal)
    requires Sane(t) && Pure(t) && AllClosed(t) && IsDriver(t, d) && d.ByOutput?
    requires b in ExprDeps(DriverExpr(t, d))
    ensures FlatEdge(t, Target(t, d), NodeOf(t, b))
  {
    var u := At(t, d.path);
    var oc := u.instances[d.inst].outputs[d.index];
    ConnectionKinds(t, d.path, d.inst);
    ChildPath(t, d.path, d.inst);
    assert oc in u.instances[d.inst].outputs;
    NodeOfMoved(t, Node(d.path + [d.inst], oc.port));
    assert Conn(oc.port, oc.parent) == oc;
    assert FlatEdge(u, Top(oc.parent), Node([d.inst], oc.port));
    EdgeBelow(t, d.path, Top(oc.parent), Node([d.inst], oc.port));
    assert d.path + [] == d.path;
  }

  lemma InputDriverEdge(t: Tree, d: Driver, b: Signal)
    requires Sane(t) && Pure(t) && AllClosed(t) && IsDriver(t, d) && d.ByInput?
    requires b in ExprDeps(DriverExpr(t, d))
    ensures FlatEdge(t, Target(t, d), NodeOf(t, b))
  {
    var u := At(t, d.path);
    var ic := u.instances[d.inst].inputs[d.index];
    ConnectionKinds(t, d.path, d.inst);
    assert ic in u.instances[d.inst].inputs;
    NodeOfMoved(t, Node(d.path, ic.parent));
    assert Conn(ic.port, ic.parent) == ic;
    assert FlatEdge(u, Node([d.inst], ic.port), Top(ic.parent));
    EdgeBelow(t, d.path, Node([d.inst], ic.port), Top(ic.parent));
    assert d.path + [] == d.path;
  }

  /** The flattened module has no cycle because the flattened graph has none. */
  lemma FlatIsAcyclic(t: Tree)
    requires Sane(t) && Pure(t) && AllClosed(t) && LevelsAcyclic(t)
    ensures Acyclic(Edges(FlatTree(t)))
  {
    CheckIsCompositional(t);
    var r, g := Edges(FlatTree(t)), FlatEdges(t);
    forall a, b | r(a, b)
      ensures g(NodeOf(t, a), NodeOf(t, b))
    {
      FlatEdgeOf(t, a, b);
    }
    AcyclicImage(r, g, x => NodeOf(t, x));
  }


  /** So the flattened design settles. */
  lemma FlatIsLevelled(t: Tree)
    requires Sane(t) && Pure(t) && AllClosed(t) && LevelsAcyclic(t)
    ensures Levelled(FlatTree(t))
  {
    FlatIsAcyclic(t);
    Ranking.FlatCoarse(FlatTree(t));
    Ranking.CoarseLevelled(FlatTree(t));
  }
}
