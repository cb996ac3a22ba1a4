/** Acyclic designs settle: a rank for every driven signal, bounded by the number
    of drivers, exists whenever the dependency graph stays acyclic with every
    instance taken as one node. */
module Ranking {
  import opened Rtl
  import opened Semantics
  import opened Simulation
  import opened Paths
  import opened Depends
  import opened Settling
  import opened Convergence
  import opened Bound
  import opened Fixpoint

  /** The dependency graph with every instance as one node from all its inputs
      to all its outputs. */
  ghost predicate CoarseEdge(t: Tree, a: Signal, b: Signal) {
    || (exists j :: 0 <= j < |t.m.assignments| && t.m.assignments[j].dst == a
                    && b in AssignDeps(t.m.assignments[j]))
    || (exists i, oc, ic ::
          && 0 <= i < |t.instances|
          && oc in t.instances[i].outputs && ic in t.instances[i].inputs
          && oc.parent == a && ic.parent == b)
  }

  ghost function CoarseEdges(t: Tree): Relation<Signal> {
    (a, b) => CoarseEdge(t, a, b)
  }

  ghost predicate CoarseAcyclic(t: Tree)
    decreases t
  {
    && Acyclic(CoarseEdges(t))
    && forall i | 0 <= i < |t.instances| :: CoarseAcyclic(t.Child(i))
  }

  lemma EdgeIsCoarse(t: Tree, a: Signal, b: Signal)
    requires Edge(t, a, b)
    ensures CoarseEdge(t, a, b)
  {
    if !(exists j :: 0 <= j < |t.m.assignments| && t.m.assignments[j].dst == a
                     && b in AssignDeps(t.m.assignments[j])) {
      var i, oc, ic :| 0 <= i < |t.instances|
                       && oc in t.instances[i].outputs && ic in t.instances[i].inputs
                       && oc.parent == a && ic.parent == b;
    }
  }

  // --------------------------------------------------------------- drivers

  function Drivers(t: Tree): nat {
    |t.m.assignments| + |t.instances|
  }

  /** Driver n is an assignment, or after those an instance. */
  predicate Drives(t: Tree, n: nat, y: Signal)
    requires n < Drivers(t)
  {
    if n < |t.m.assignments| then t.m.assignments[n].dst == y
    else exists oc | oc in t.instances[n - |t.m.assignments|].outputs :: oc.parent == y
  }

  /** Driver n drives `x` or something `x` depends on. */
  ghost predicate Behind(t: Tree, n: nat, x: Signal)
    requires n < Drivers(t)
  {
    exists y :: Drives(t, n, y) && (y == x || Reaches(CoarseEdges(t), x, y))
  }

  ghost function Below(t: Tree, x: Signal): set<nat> {
    set n: nat | n < Drivers(t) && Behind(t, n, x)
  }

  /** The driver through which `a` depends on `b` is behind `a` but not behind
      `b`. */
  lemma EdgeDriver(t: Tree, a: Signal, b: Signal) returns (n: nat)
    requires CoarseEdge(t, a, b) && Acyclic(CoarseEdges(t))
    ensures n < Drivers(t) && Behind(t, n, a) && !Behind(t, n, b)
  {
    var r := CoarseEdges(t);
    if j :| 0 <= j < |t.m.assignments| && t.m.assignments[j].dst == a
            && b in AssignDeps(t.m.assignments[j]) {
      n := j;
      assert Drives(t, n, a);
      if Behind(t, n, b) {
        StepReaches(r, a, b);
        if a != b {
          ReachesTrans(r, a, b, a);
        }
        assert false;
      }
    } else {
      var i, oc, ic :| 0 <= i < |t.instances|
                       && oc in t.instances[i].outputs && ic in t.instances[i].inputs
                       && oc.parent == a && ic.parent == b;
      n := |t.m.assignments| + i;
      assert Drives(t, n, a);
      InputNotBehind(t, i, ic);
    }
  }

  /** An instance is not behind its own inputs. */
  lemma InputNotBehind(t: Tree, i: nat, ic: Conn)
    requires i < |t.instances| && ic in t.instances[i].inputs && Acyclic(CoarseEdges(t))
    ensures !Behind(t, |t.m.assignments| + i, ic.parent)
  {
    var r, b, n := CoarseEdges(t), ic.parent, |t.m.assignments| + i;
    if Behind(t, n, b) {
      var y :| Drives(t, n, y) && (y == b || Reaches(r, b, y));
      var oc :| oc in t.instances[i].outputs && oc.parent == y;
      assert CoarseEdge(t, y, b);
      StepReaches(r, y, b);
      if y != b {
        ReachesTrans(r, b, y, b);
      }
      assert false;
    }
  }

  lemma BehindStep(t: Tree, n: nat, a: Signal, b: Signal)
    requires n < Drivers(t) && CoarseEdge(t, a, b) && Behind(t, n, b)
    ensures Behind(t, n, a)
  {
    var r := CoarseEdges(t);
    var y :| Drives(t, n, y) && (y == b || Reaches(r, b, y));
    StepReaches(r, a, b);
    if y != b {
      ReachesTrans(r, a, b, y);
    }
  }

  lemma {:induction false} Cardinality(s: set<nat>, n: nat)
    requires forall k | k in s :: k < n
    ensures |s| <= n
    decreases n
  {
    if n > 0 {
      Cardinality(s - {n - 1}, n - 1);
      assert s - {n - 1} + {n - 1} >= s;
    } else {
      assert s == {};
    }
  }

  lemma ProperSubset(a: set<nat>, b: set<nat>, n: nat)
    requires a <= b && n in b && n !in a
    ensures |a| < |b|
  {
    assert b == a + (b - a) && n in b - a;
  }

  lemma BelowFalls(t: Tree, a: Signal, b: Signal)
    requires CoarseEdge(t, a, b) && Acyclic(CoarseEdges(t))
    ensures |Below(t, b)| < |Below(t, a)| <= Drivers(t)
  {
    var n := EdgeDriver(t, a, b);
    forall k | k in Below(t, b)
      ensures k in Below(t, a)
    {
      BehindStep(t, k, a, b);
    }
    ProperSubset(Below(t, b), Below(t, a), n);
    Cardinality(Below(t, a), Drivers(t));
  }

  // ----------------------------------------------------------------- ranks

  function DrivenSignals(t: Tree): set<Signal> {
    (set a | a in t.m.assignments :: a.dst)
    + (set i, c | 0 <= i < |t.instances| && c in t.instances[i].outputs :: c.parent)
  }

  /** The number of drivers behind a signal. */
  ghost function Ranks(t: Tree): map<Signal, nat> {
    map x | x in DrivenSignals(t) :: |Below(t, x)|
  }

  lemma DriverRank(t: Tree, n: nat, x: Signal)
    requires n < Drivers(t) && Drives(t, n, x)
    ensures x in DrivenSignals(t) && 1 <= Rk(Ranks(t), x) <= Drivers(t)
  {
    if n < |t.m.assignments| {
      assert t.m.assignments[n] in t.m.assignments;
    }
    assert n in Below(t, x);
    Cardinality(Below(t, x), Drivers(t));
  }

  lemma RankAtMost(t: Tree, x: Signal)
    ensures Rk(Ranks(t), x) <= |Below(t, x)|
  {
  }

  lemma EdgeFalls(t: Tree, a: Signal, b: Signal)
    requires Edge(t, a, b) && Acyclic(CoarseEdges(t))
    ensures Rk(Ranks(t), a) > Rk(Ranks(t), b)
  {
    EdgeIsCoarse(t, a, b);
    BelowFalls(t, a, b);
    RankAtMost(t, b);
    assert a in DrivenSignals(t) by {
      if j :| 0 <= j < |t.m.assignments| && t.m.assignments[j].dst == a {
        assert t.m.assignments[j] in t.m.assignments;
      }
    }
  }

  lemma InputRank(t: Tree, i: nat, ic: Conn)
    requires i < |t.instances| && ic in t.instances[i].inputs && Acyclic(CoarseEdges(t))
    ensures Rk(Ranks(t), ic.parent) < Drivers(t)
  {
    var n := |t.m.assignments| + i;
    InputNotBehind(t, i, ic);
    RankAtMost(t, ic.parent);
    var more := Below(t, ic.parent) + {n};
    ProperSubset(Below(t, ic.parent), more, n);
    Cardinality(more, Drivers(t));
  }

  lemma CoarseRanks(t: Tree)
    requires Acyclic(CoarseEdges(t))
    ensures RankOk(t, Ranks(t))
  {
    var r := Ranks(t);
    forall a, b | Edge(t, a, b)
      ensures Rk(r, a) > Rk(r, b)
    {
      EdgeFalls(t, a, b);
    }
    forall j | 0 <= j < |t.m.assignments|
      ensures 1 <= Rk(r, t.m.assignments[j].dst) <= Limit(t)
    {
      DriverRank(t, j, t.m.assignments[j].dst);
    }
    forall i, c | 0 <= i < |t.instances| && c in t.instances[i].outputs
      ensures 1 <= Rk(r, c.parent) <= Limit(t)
    {
      assert Drives(t, |t.m.assignments| + i, c.parent);
      DriverRank(t, |t.m.assignments| + i, c.parent);
    }
    forall i, c | 0 <= i < |t.instances| && c in t.instances[i].inputs
      ensures Rk(r, c.parent) < Limit(t)
    {
      InputRank(t, i, c);
    }
  }

  /** A hierarchy that stays acyclic with instances as single nodes fits the
      settling bound at every level. */
  lemma {:induction false} CoarseLevelled(t: Tree)
    requires CoarseAcyclic(t)
    ensures Levelled(t)
    decreases t
  {
    CoarseRanks(t);
    forall i | 0 <= i < |t.instances|
      ensures Levelled(t.Child(i))
    {
      CoarseLevelled(t.Child(i));
    }
  }

  lemma FlatEdge(t: Tree, a: Signal, b: Signal)
    requires t.instances == [] && CoarseEdge(t, a, b)
    ensures Edge(t, a, b)
  {
    var j :| 0 <= j < |t.m.assignments| && t.m.assignments[j].dst == a
             && b in AssignDeps(t.m.assignments[j]);
  }

  lemma FlatCoarse(t: Tree)
    requires t.instances == [] && Acyclic(Edges(t))
    ensures CoarseAcyclic(t)
  {
    forall a, b | CoarseEdges(t)(a, b)
      ensures Edges(t)(a, b)
    {
      FlatEdge(t, a, b);
    }
    AcyclicSub(CoarseEdges(t), Edges(t));
  }

  lemma CoarseSettleable(t: Tree)
    requires t.instances == [] && Sane(t) && AsyncFromInputs(t.m) && Acyclic(CoarseEdges(t))
    ensures Settleable(t)
  {
    CoarseLevelled(t);
  }

  /** A flat module accepted by the cycle check meets the settling conditions. */
  lemma FlatSettleable(t: Tree)
    requires t.instances == [] && Sane(t) && AsyncFromInputs(t.m) && Acyclic(Edges(t))
    ensures Settleable(t)
  {
    FlatCoarse(t);
    CoarseLevelled(t);
  }

  /** A flat module accepted by the cycle check settles from every state, and into
      the same state whatever its wires held and in whatever order its
      assignments stand. */
  lemma FlatSettles(t: Tree, u: Tree, a: State, b: State)
    requires t.instances == [] && Sane(t) && AsyncFromInputs(t.m) && Acyclic(Edges(t))
    requires Reordered(t, u) && Fits(t, a) && Fits(t, b) && Fits(u, b)
    ensures Settled(t, Settle(t, a))
    ensures Unheld(t) && SameStored(t, a, b) && SameInputs(t, a, b) ==>
              forall x | t.m.Owns(x) ::
                Get(Settle(t, a).Values(), x) == Get(Settle(u, b).Values(), x)
  {
    FlatSettleable(t);
    SettleSettles(t, a);
    if Unheld(t) && SameStored(t, a, b) && SameInputs(t, a, b) {
      SettleForgetsWires(t, a, b);
      OrderIrrelevant(t, u, b);
    }
  }

  /** A hierarchy without hold-muxes and asynchronous resets that stays acyclic
      with instances as single nodes settles at every level from every state. */
  lemma CoarseSettles(t: Tree, s: State)
    requires Fits(t, s) && Sane(t) && Pure(t) && CoarseAcyclic(t)
    ensures Settled(t, Settle(t, s))
  {
    CoarseLevelled(t);
    PureSettleable(t);
    SettleSettles(t, s);
  }
}
