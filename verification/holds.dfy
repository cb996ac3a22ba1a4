/** Which signals an expression reads, and hold-muxes, told by their shape: a wire assigned `mux(c, v, itself)` is no cycle,
    whatever the condition, and everything else that reads itself is. */
module HoldMuxes {
  import opened Rtl
  import opened Semantics
  import opened Simulation
  import opened Paths
  import opened Depends
  import opened Settling
  import opened Bound
  import Ranking

  /** `x` is `e` or a part of it. */
  predicate Within(x: Expr, e: Expr)
    decreases e
  {
    x == e ||
    match e
    case Lit(_, _) => false
    case Ref(_) => false
    case Not(inner) => Within(x, inner)
    case Bits(_, l, r) => Within(x, l) || Within(x, r)
    case Arith(_, l, r) => Within(x, l) || Within(x, r)
    case Compare(_, l, r) => Within(x, l) || Within(x, r)
    case Mux(c, t, f) => Within(x, c) || Within(x, t) || Within(x, f)
    case Slice(inner, _, _) => Within(x, inner)
    case Zext(inner, _) => Within(x, inner)
    case Sext(inner, _) => Within(x, inner)
    case Trunc(inner, _) => Within(x, inner)
    case Cast(inner, _) => Within(x, inner)
    case Concat(parts) => exists i | 0 <= i < |parts| :: Within(x, parts[i])
    case MemRead(_, addr) => Within(x, addr)
  }

  /** The dependencies of an expression are the signals it mentions, a memory's
      contents not among them. */
  lemma {:induction false} DepsAre(e: Expr, y: Signal)
    ensures y in ExprDeps(e) <==> Within(Ref(y), e)
    decreases e
  {
    match e
    case Lit(_, _) =>
    case Ref(_) =>
    case Bits(_, l, r) => DepsAre(l, y); DepsAre(r, y);
    case Arith(_, l, r) => DepsAre(l, y); DepsAre(r, y);
    case Compare(_, l, r) => DepsAre(l, y); DepsAre(r, y);
    case Mux(c, t, f) => DepsAre(c, y); DepsAre(t, y); DepsAre(f, y);
    case Concat(parts) => PartsDepsAre(parts, y);
    case MemRead(_, addr) => DepsAre(addr, y);
    case Not(inner) => DepsAre(inner, y);
    case Slice(inner, _, _) => DepsAre(inner, y);
    case Zext(inner, _) => DepsAre(inner, y);
    case Sext(inner, _) => DepsAre(inner, y);
    case Trunc(inner, _) => DepsAre(inner, y);
    case Cast(inner, _) => DepsAre(inner, y);
  }

  lemma {:induction false} PartsDepsAre(parts: seq<Expr>, y: Signal)
    ensures y in PartsDeps(parts) <==> exists i | 0 <= i < |parts| :: Within(Ref(y), parts[i])
    decreases parts
  {
    if parts != [] {
      DepsAre(parts[0], y);
      PartsDepsAre(parts[1..], y);
      assert forall i | 0 <= i < |parts| - 1 :: parts[1..][i] == parts[i + 1];
      if i :| 0 < i < |parts| && Within(Ref(y), parts[i]) {
        assert Within(Ref(y), parts[1..][i - 1]);
      }
    }
  }

  /** The assignment reads the signal, other than as the else branch that holds its
      own destination. */
  predicate ReadsElsewhere(a: Assignment, y: Signal) {
    match a.expr
    case Mux(c, v, Ref(x)) =>
      if x == a.dst then Within(Ref(y), c) || Within(Ref(y), v) else Within(Ref(y), a.expr)
    case _ => Within(Ref(y), a.expr)
  }

  ghost function ElsewhereEdges(t: Tree): Relation<Signal> {
    (x, y) => exists j :: 0 <= j < |t.m.assignments| && t.m.assignments[j].dst == x
                          && ReadsElsewhere(t.m.assignments[j], y)
  }

  lemma ElsewhereDeps(a: Assignment, y: Signal)
    ensures y in AssignDeps(a) <==> ReadsElsewhere(a, y)
  {
    DepsAre(a.expr, y);
    if a.expr.Mux? {
      DepsAre(a.expr.cond, y);
      DepsAre(a.expr.thenExpr, y);
    }
  }

  lemma ElsewhereEdge(t: Tree, x: Signal, y: Signal)
    requires t.instances == []
    ensures Edges(t)(x, y) <==> ElsewhereEdges(t)(x, y)
  {
    forall j | 0 <= j < |t.m.assignments|
      ensures y in AssignDeps(t.m.assignments[j]) <==> ReadsElsewhere(t.m.assignments[j], y)
    {
      ElsewhereDeps(t.m.assignments[j], y);
    }
  }

  /** A flat module passes the cycle check exactly when it has no cycle apart from
      hold-muxes, and then it settles from every state. */
  lemma HoldsPass(t: Tree)
    requires t.instances == [] && Sane(t) && AsyncFromInputs(t.m)
    ensures Acyclic(Edges(t)) <==> Acyclic(ElsewhereEdges(t))
    ensures Acyclic(ElsewhereEdges(t)) ==> Settleable(t) && forall s | Fits(t, s) :: Settled(t, Settle(t, s))
  {
    forall x, y | Edges(t)(x, y)
      ensures ElsewhereEdges(t)(x, y)
    {
      ElsewhereEdge(t, x, y);
    }
    forall x, y | ElsewhereEdges(t)(x, y)
      ensures Edges(t)(x, y)
    {
      ElsewhereEdge(t, x, y);
    }
    if Acyclic(ElsewhereEdges(t)) {
      AcyclicSub(Edges(t), ElsewhereEdges(t));
      Ranking.FlatSettleable(t);
      forall s | Fits(t, s)
        ensures Settled(t, Settle(t, s))
      {
        SettleSettles(t, s);
      }
    } else if Acyclic(Edges(t)) {
      AcyclicSub(ElsewhereEdges(t), Edges(t));
    }
  }

  /** In particular one hold-mux over inputs, with any condition. */
  lemma OneHold(t: Tree, w: Signal, c: Expr, v: Expr)
    requires t.instances == [] && Sane(t) && AsyncFromInputs(t.m)
    requires t.m.assignments == [Assignment(w, Mux(c, v, Ref(w)))]
    requires forall x | Within(Ref(x), c) || Within(Ref(x), v) :: IsInput(t.m, x)
    ensures Acyclic(Edges(t)) && forall s | Fits(t, s) :: Settled(t, Settle(t, s))
  {
    forall x, y | ElsewhereEdges(t)(x, y)
      ensures Height(w, x) > Height(w, y)
    {
      assert Drivable(t.m, t.m.assignments[0].dst);
    }
    RankedAcyclic(ElsewhereEdges(t), x => Height(w, x));
    HoldsPass(t);
  }

  function Height(w: Signal, x: Signal): nat {
    if x == w then 1 else 0
  }

  /** Where its condition is true a settled hold-mux shows the new value. */
  lemma HoldShows(t: Tree, s: State, j: nat)
    requires Fits(t, s) && Settled(t, s) && j < |t.m.assignments|
    requires
      var a := t.m.assignments[j];
      t.m.Owns(a.dst) && a.expr.Mux? && a.expr.elseExpr == Ref(a.dst) && Eval(t.m, s.store, a.expr.cond) != 0
    ensures
      var a := t.m.assignments[j];
      Get(s.Values(), a.dst) == Masked(Eval(t.m, s.store, a.expr.thenExpr), t.m.WidthOf(a.dst))
  {
    assert AssignOk(t.m, s.store, t.m.assignments[j]);
  }
}
