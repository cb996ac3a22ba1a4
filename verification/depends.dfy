/** Combinational dependencies: which signals an assignment reads, which input
    ports an output port depends on, and the structural checks a validated
    design has passed. */
module Depends {
  import opened Rtl
  import opened Semantics
  import opened Simulation
  import opened Paths

  /** `collect_expr_signal_deps` */
  function ExprDeps(e: Expr): seq<Signal>
    decreases e
  {
    match e
    case Lit(_, _) => []
    case Ref(s) => [s]
    case Not(inner) => ExprDeps(inner)
    case Bits(_, l, r) => ExprDeps(l) + ExprDeps(r)
    case Arith(_, l, r) => ExprDeps(l) + ExprDeps(r)
    case Compare(_, l, r) => ExprDeps(l) + ExprDeps(r)
    case Mux(cond, t, f) => ExprDeps(cond) + ExprDeps(t) + ExprDeps(f)
    case Slice(inner, _, _) => ExprDeps(inner)
    case Zext(inner, _) => ExprDeps(inner)
    case Sext(inner, _) => ExprDeps(inner)
    case Trunc(inner, _) => ExprDeps(inner)
    case Cast(inner, _) => ExprDeps(inner)
    case Concat(parts) => PartsDeps(parts)
    case MemRead(_, addr) => ExprDeps(addr)
  }

  function PartsDeps(parts: seq<Expr>): seq<Signal>
    decreases parts
  {
    if parts == [] then [] else ExprDeps(parts[0]) + PartsDeps(parts[1..])
  }

  /** A mux that keeps its destination when not enabled. */
  predicate IsHold(a: Assignment) {
    a.expr.Mux? && a.expr.elseExpr == Ref(a.dst)
  }

  /** `assignment_signal_deps`: the else branch of a hold-mux is not a
      dependency. */
  function AssignDeps(a: Assignment): seq<Signal> {
    if IsHold(a) then ExprDeps(a.expr.cond) + ExprDeps(a.expr.thenExpr)
    else ExprDeps(a.expr)
  }

  /** The memories an expression reads. */
  function ExprMems(e: Expr): seq<Signal>
    decreases e
  {
    match e
    case Lit(_, _) => []
    case Ref(_) => []
    case Not(inner) => ExprMems(inner)
    case Bits(_, l, r) => ExprMems(l) + ExprMems(r)
    case Arith(_, l, r) => ExprMems(l) + ExprMems(r)
    case Compare(_, l, r) => ExprMems(l) + ExprMems(r)
    case Mux(cond, t, f) => ExprMems(cond) + ExprMems(t) + ExprMems(f)
    case Slice(inner, _, _) => ExprMems(inner)
    case Zext(inner, _) => ExprMems(inner)
    case Sext(inner, _) => ExprMems(inner)
    case Trunc(inner, _) => ExprMems(inner)
    case Cast(inner, _) => ExprMems(inner)
    case Concat(parts) => PartsMems(parts)
    case MemRead(mem, addr) => [mem] + ExprMems(addr)
  }

  function PartsMems(parts: seq<Expr>): seq<Signal>
    decreases parts
  {
    if parts == [] then [] else ExprMems(parts[0]) + PartsMems(parts[1..])
  }

  predicate SameMem(a: Memories, b: Memories, y: Signal) {
    (y in a <==> y in b) && (y in a ==> a[y] == b[y])
  }

  predicate SameReads(a: Store, b: Store, signals: seq<Signal>, mems: seq<Signal>) {
    && (forall x | x in signals :: Get(a.values, x) == Get(b.values, x))
    && (forall y | y in mems :: SameMem(a.mems, b.mems, y))
  }

  lemma ReadsBoth(a: Store, b: Store, xs: seq<Signal>, ys: seq<Signal>, us: seq<Signal>, vs: seq<Signal>)
    requires SameReads(a, b, xs + ys, us + vs)
    ensures SameReads(a, b, xs, us) && SameReads(a, b, ys, vs)
  {
  }

  predicate OneOperand(e: Expr) {
    e.Not? || e.Slice? || e.Zext? || e.Sext? || e.Trunc? || e.Cast?
  }

  lemma OneOperandReads(m: Module, a: Store, b: Store, e: Expr)
    requires OneOperand(e) && Eval(m, a, e.inner) == Eval(m, b, e.inner)
    ensures Eval(m, a, e) == Eval(m, b, e)
  {
  }

  lemma TwoOperandReads(m: Module, a: Store, b: Store, e: Expr)
    requires e.Bits? || e.Arith? || e.Compare?
    requires Eval(m, a, e.lhs) == Eval(m, b, e.lhs) && Eval(m, a, e.rhs) == Eval(m, b, e.rhs)
    ensures Eval(m, a, e) == Eval(m, b, e)
  {
  }

  lemma MuxReads(m: Module, a: Store, b: Store, e: Expr)
    requires e.Mux? && Eval(m, a, e.cond) == Eval(m, b, e.cond)
    requires Eval(m, a, e.thenExpr) == Eval(m, b, e.thenExpr)
    requires Eval(m, a, e.elseExpr) == Eval(m, b, e.elseExpr)
    ensures Eval(m, a, e) == Eval(m, b, e)
  {
  }

  lemma MemReads(m: Module, a: Store, b: Store, e: Expr)
    requires e.MemRead? && Eval(m, a, e.addr) == Eval(m, b, e.addr) && SameMem(a.mems, b.mems, e.mem)
    ensures Eval(m, a, e) == Eval(m, b, e)
  {
  }

  /** An expression looks only at its signals and its memories. */
  lemma {:induction false} EvalReads(m: Module, a: Store, b: Store, e: Expr)
    requires SameReads(a, b, ExprDeps(e), ExprMems(e))
    ensures Eval(m, a, e) == Eval(m, b, e)
    decreases e, 1
  {
    if e.Bits? || e.Arith? || e.Compare? {
      ReadsBoth(a, b, ExprDeps(e.lhs), ExprDeps(e.rhs), ExprMems(e.lhs), ExprMems(e.rhs));
      EvalReads(m, a, b, e.lhs);
      EvalReads(m, a, b, e.rhs);
      TwoOperandReads(m, a, b, e);
    } else if e.Mux? {
      MuxEvalReads(m, a, b, e);
    } else if e.Concat? {
      PartsEvalReads(m, a, b, e.parts);
    } else if e.MemRead? {
      assert SameMem(a.mems, b.mems, e.mem);
      EvalReads(m, a, b, e.addr);
      MemReads(m, a, b, e);
    } else if OneOperand(e) {
      EvalReads(m, a, b, e.inner);
      OneOperandReads(m, a, b, e);
    }
  }

  lemma {:induction false} MuxEvalReads(m: Module, a: Store, b: Store, e: Expr)
    requires e.Mux? && SameReads(a, b, ExprDeps(e), ExprMems(e))
    ensures Eval(m, a, e) == Eval(m, b, e)
    decreases e, 0
  {
    ReadsBoth(a, b, ExprDeps(e.cond) + ExprDeps(e.thenExpr), ExprDeps(e.elseExpr),
              ExprMems(e.cond) + ExprMems(e.thenExpr), ExprMems(e.elseExpr));
    ReadsBoth(a, b, ExprDeps(e.cond), ExprDeps(e.thenExpr), ExprMems(e.cond), ExprMems(e.thenExpr));
    EvalReads(m, a, b, e.cond);
    EvalReads(m, a, b, e.thenExpr);
    EvalReads(m, a, b, e.elseExpr);
    MuxReads(m, a, b, e);
  }

  lemma {:induction false} PartsEvalReads(m: Module, a: Store, b: Store, parts: seq<Expr>)
    requires SameReads(a, b, PartsDeps(parts), PartsMems(parts))
    ensures EvalParts(m, a, parts) == EvalParts(m, b, parts)
    decreases parts
  {
    if parts != [] {
      ReadsBoth(a, b, ExprDeps(parts[0]), PartsDeps(parts[1..]), ExprMems(parts[0]), PartsMems(parts[1..]));
      EvalReads(m, a, b, parts[0]);
      PartsEvalReads(m, a, b, parts[1..]);
    }
  }

  /** Over the same memories an expression looks only at its dependencies. */
  lemma EvalDeps(m: Module, v: Values, w: Values, mems: Memories, e: Expr)
    requires forall x | x in ExprDeps(e) :: Get(v, x) == Get(w, x)
    ensures Eval(m, Store(v, mems), e) == Eval(m, Store(w, mems), e)
  {
    EvalReads(m, Store(v, mems), Store(w, mems), e);
  }

  // ----------------------------------------------------- dependency graph

  /** One edge of the graph of a module: an assignment reads `b`, or an instance
      output connected to `a` depends, inside the child, on an input connected
      to `b`. */
  ghost predicate Edge(t: Tree, a: Signal, b: Signal)
    decreases t, 0
  {
    || (exists j :: 0 <= j < |t.m.assignments| && t.m.assignments[j].dst == a
                    && b in AssignDeps(t.m.assignments[j]))
    || (exists i, oc, ic ::
          && 0 <= i < |t.instances|
          && oc in t.instances[i].outputs && ic in t.instances[i].inputs
          && oc.parent == a && ic.parent == b
          && PortDep(t.Child(i), oc.port, ic.port))
  }

  ghost function Edges(t: Tree): Relation<Signal>
    decreases t, 1
  {
    (a, b) => Edge(t, a, b)
  }

  /** The port dependency `module_comb_port_deps` computes. */
  ghost predicate PortDep(t: Tree, output: Signal, input: Signal)
    decreases t, 2
  {
    Reaches(Edges(t), output, input)
  }

  lemma InstanceEdge(t: Tree, i: nat, oc: Conn, ic: Conn)
    requires i < |t.instances|
    requires oc in t.instances[i].outputs && ic in t.instances[i].inputs
    requires PortDep(t.Child(i), oc.port, ic.port)
    ensures Edge(t, oc.parent, ic.parent)
  {
  }

  // ------------------------------------------------- what validation ensures

  predicate IsInput(m: Module, s: Signal) {
    m.Owns(s) && m.signals[s.id].kind.Input?
  }

  predicate IsOutput(m: Module, s: Signal) {
    m.Owns(s) && m.signals[s.id].kind.Output?
  }

  /** What an assignment or an instance output may drive. */
  predicate Drivable(m: Module, s: Signal) {
    m.Owns(s) && (m.signals[s.id].kind.Output? || m.signals[s.id].kind.Wire?)
  }

  /** The connections of one instance: directions and types match, every input
      port is connected, and none twice. */
  predicate ConnectionsOk(m: Module, inst: Instance) {
    && (forall c | c in inst.inputs ::
          IsInput(inst.child.m, c.port) && m.Owns(c.parent)
          && m.WidthOf(c.parent) == inst.child.m.WidthOf(c.port))
    && (forall c | c in inst.outputs ::
          IsOutput(inst.child.m, c.port) && Drivable(m, c.parent)
          && m.WidthOf(c.parent) == inst.child.m.WidthOf(c.port))
    && (forall i, j | 0 <= i < j < |inst.inputs| :: inst.inputs[i].port != inst.inputs[j].port)
    && (forall k | 0 <= k < |inst.child.m.signals| ::
          inst.child.m.signals[k].kind.Input? ==> Connected(inst, inst.child.m.Handle(k)))
  }

  predicate Connected(inst: Instance, port: Signal) {
    exists c | c in inst.inputs :: c.port == port
  }

  predicate OneDriver(t: Tree) {
    && (forall j, k | 0 <= j < k < |t.m.assignments| ::
          t.m.assignments[j].dst != t.m.assignments[k].dst)
    && (forall i, o, k | 0 <= i < |t.instances| && 0 <= o < k < |t.instances[i].outputs| ::
          t.instances[i].outputs[o].parent != t.instances[i].outputs[k].parent)
    && (forall i, n, oc, nc | 0 <= i < n < |t.instances|
          && oc in t.instances[i].outputs && nc in t.instances[n].outputs ::
          oc.parent != nc.parent)
    && (forall i, oc, j | 0 <= i < |t.instances| && oc in t.instances[i].outputs
          && 0 <= j < |t.m.assignments| :: oc.parent != t.m.assignments[j].dst)
  }

  /** Every driven signal is an output or a wire with one driver, and the
      connections of every instance are in order, at every level. */
  predicate Sane(t: Tree)
    decreases t
  {
    && (forall j | 0 <= j < |t.m.assignments| :: Drivable(t.m, t.m.assignments[j].dst))
    && (forall i | 0 <= i < |t.instances| :: ConnectionsOk(t.m, t.instances[i]))
    && OneDriver(t)
    && (forall i | 0 <= i < |t.instances| :: Sane(t.Child(i)))
  }

  /** Asynchronous resets come straight from input ports. */
  predicate AsyncFromInputs(m: Module) {
    forall i | 0 <= i < |m.signals| && HasAsync(m.signals[i]) ::
      IsInput(m, m.signals[i].kind.reset.value.signal)
  }

  /** No hold-mux, at any level. */
  predicate Unheld(t: Tree)
    decreases t
  {
    && (forall j | 0 <= j < |t.m.assignments| :: !IsHold(t.m.assignments[j]))
    && (forall i | 0 <= i < |t.instances| :: Unheld(t.Child(i)))
  }

  /** No hold-mux and no asynchronous reset, at any level. */
  predicate Pure(t: Tree)
    decreases t
  {
    && (forall j | 0 <= j < |t.m.assignments| :: !IsHold(t.m.assignments[j]))
    && (forall i | 0 <= i < |t.m.signals| :: !HasAsync(t.m.signals[i]))
    && (forall i | 0 <= i < |t.instances| :: Pure(t.Child(i)))
  }

  lemma {:induction false} PureUnheld(t: Tree)
    requires Pure(t)
    ensures Unheld(t)
    decreases t
  {
    forall i | 0 <= i < |t.instances|
      ensures Unheld(t.Child(i))
    {
      PureUnheld(t.Child(i));
    }
  }

  predicate Assigned(m: Module, x: Signal) {
    exists a | a in m.assignments :: a.dst == x
  }

  predicate OutputDriven(t: Tree, x: Signal) {
    exists i, oc | 0 <= i < |t.instances| && oc in t.instances[i].outputs :: oc.parent == x
  }

  predicate Driven(t: Tree, x: Signal) {
    Assigned(t.m, x) || OutputDriven(t, x)
  }
}
