/** The settling loop: when the bounded number of rounds is enough, what the
    settled state is, and that it is unique. */
module Settling {
  import opened Words
  import opened Rtl
  import opened Semantics
  import opened Simulation
  import opened Depends

  // ------------------------------------------------------- settled states

  /** The destination holds the masked value of its expression. */
  predicate AssignOk(m: Module, st: Store, a: Assignment) {
    m.Owns(a.dst) ==>
      && a.dst in st.values
      && st.values[a.dst] == Masked(Eval(m, st, a.expr), m.WidthOf(a.dst))
  }

  predicate InputOk(inst: Instance, values: Values, kid: State, c: Conn) {
    && c.port in kid.Values()
    && kid.Values()[c.port] == Masked(Get(values, c.parent), PortWidth(inst.child.m, c.port))
  }

  predicate OutputOk(inst: Instance, values: Values, kid: State, c: Conn) {
    c.parent in values && values[c.parent] == PortValue(inst, kid, c)
  }

  predicate ResetsOk(m: Module, values: Values) {
    ApplyResets(m, values) == values
  }

  /** Every equation of the design holds, at every level: assignments, port
      connections in both directions, and asserted asynchronous resets. */
  predicate Settled(t: Tree, s: State)
    requires Fits(t, s)
    decreases t
  {
    && ResetsOk(t.m, s.Values())
    && (forall j | 0 <= j < |t.m.assignments| :: AssignOk(t.m, s.store, t.m.assignments[j]))
    && (forall i | 0 <= i < |t.instances| ::
          && (forall c | c in t.instances[i].inputs ::
                InputOk(t.instances[i], s.Values(), s.kids[i], c))
          && (forall c | c in t.instances[i].outputs ::
                OutputOk(t.instances[i], s.Values(), s.kids[i], c))
          && Settled(t.Child(i), s.kids[i]))
  }

  // ----------------------------------------------------------------- ranks

  /** The rank of a signal; undriven signals may be left out. */
  function Rk(r: map<Signal, nat>, x: Signal): nat {
    if x in r then r[x] else 0
  }

  /** Ranks bound the length of dependency chains: every driven signal is
      reached within the settling limit, and whatever feeds an instance one
      round earlier. */
  ghost predicate RankOk(t: Tree, r: map<Signal, nat>) {
    && (forall a, b | Edge(t, a, b) :: Rk(r, a) > Rk(r, b))
    && (forall j | 0 <= j < |t.m.assignments| ::
          1 <= Rk(r, t.m.assignments[j].dst) <= Limit(t))
    && (forall i, c | 0 <= i < |t.instances| && c in t.instances[i].outputs ::
          1 <= Rk(r, c.parent) <= Limit(t))
    && (forall i, c | 0 <= i < |t.instances| && c in t.instances[i].inputs ::
          Rk(r, c.parent) < Limit(t))
  }

  /** Dependency chains fit the settling limit at every level. */
  ghost predicate Levelled(t: Tree)
    decreases t
  {
    && (exists r :: RankOk(t, r))
    && (forall i | 0 <= i < |t.instances| :: Levelled(t.Child(i)))
  }

  // ----------------------------------------------------------- assignments

  lemma {:induction false} AssignFromFrame(m: Module, mems: Memories, p: Progress, i: nat, x: Signal)
    requires i <= |m.assignments|
    requires forall j | i <= j < |m.assignments| :: m.assignments[j].dst != x
    ensures Get(AssignFrom(m, mems, p, i).values, x) == Get(p.values, x)
    ensures x in AssignFrom(m, mems, p, i).values <==> x in p.values
    decreases |m.assignments| - i
  {
    if i < |m.assignments| {
      AssignFromFrame(m, mems, AssignOne(m, mems, p, m.assignments[i]), i + 1, x);
    }
  }

  /** A run of assignments that reports no change changed nothing, and all its
      equations hold. */
  lemma {:induction false} AssignFromStill(m: Module, mems: Memories, p: Progress, i: nat)
    requires i <= |m.assignments|
    ensures p.changed ==> AssignFrom(m, mems, p, i).changed
    ensures !AssignFrom(m, mems, p, i).changed ==>
              && AssignFrom(m, mems, p, i).values == p.values
              && forall j | i <= j < |m.assignments| ::
                   AssignOk(m, Store(p.values, mems), m.assignments[j])
    decreases |m.assignments| - i
  {
    if i < |m.assignments| {
      var q := AssignOne(m, mems, p, m.assignments[i]);
      AssignFromStill(m, mems, q, i + 1);
      if !AssignFrom(m, mems, p, i).changed {
        assert q.values == p.values;
      }
    }
  }

  /** Assignments whose equations already hold change nothing. */
  lemma {:induction false} AssignFromFixed(m: Module, mems: Memories, p: Progress, i: nat)
    requires i <= |m.assignments|
    requires forall j | i <= j < |m.assignments| ::
               AssignOk(m, Store(p.values, mems), m.assignments[j])
    ensures AssignFrom(m, mems, p, i) == p
    decreases |m.assignments| - i
  {
    if i < |m.assignments| {
      assert AssignOk(m, Store(p.values, mems), m.assignments[i]);
      assert AssignOne(m, mems, p, m.assignments[i]) == p;
      AssignFromFixed(m, mems, p, i + 1);
    }
  }

  lemma AssignDepsCover(a: Assignment, x: Signal)
    requires x in ExprDeps(a.expr)
    ensures x in AssignDeps(a) || x == a.dst
  {
  }

  /** Whether an equation holds depends only on its destination and its
      dependencies. */
  lemma AssignOkFrame(m: Module, v: Values, w: Values, mems: Memories, a: Assignment)
    requires AssignOk(m, Store(v, mems), a)
    requires forall x | x in AssignDeps(a) :: Get(v, x) == Get(w, x)
    requires Get(v, a.dst) == Get(w, a.dst)
    requires a.dst in v <==> a.dst in w
    ensures AssignOk(m, Store(w, mems), a)
  {
    DepsAgree(v, w, a);
    EvalDeps(m, v, w, mems, a.expr);
  }

  lemma DepsAgree(v: Values, w: Values, a: Assignment)
    requires forall x | x in AssignDeps(a) :: Get(v, x) == Get(w, x)
    requires Get(v, a.dst) == Get(w, a.dst)
    ensures forall x | x in ExprDeps(a.expr) :: Get(v, x) == Get(w, x)
  {
    forall x | x in ExprDeps(a.expr)
      ensures Get(v, x) == Get(w, x)
    {
      AssignDepsCover(a, x);
    }
  }

  /** Executing an assignment makes its equation hold, hold-mux or not. */
  lemma AssignOneOk(m: Module, mems: Memories, p: Progress, a: Assignment)
    requires a.dst !in AssignDeps(a)
    ensures AssignOk(m, Store(AssignOne(m, mems, p, a).values, mems), a)
  {
    if m.Owns(a.dst) {
      var v, v' := p.values, AssignOne(m, mems, p, a).values;
      if IsHold(a) {
        EvalDeps(m, v, v', mems, a.expr.cond);
        EvalDeps(m, v, v', mems, a.expr.thenExpr);
        HoldStable(m, Store(v, mems), Store(v', mems), a);
      } else {
        EvalDeps(m, v, v', mems, a.expr);
      }
    }
  }

  lemma HoldStable(m: Module, st: Store, st': Store, a: Assignment)
    requires IsHold(a) && m.Owns(a.dst)
    requires Eval(m, st, a.expr.cond) == Eval(m, st', a.expr.cond)
    requires Eval(m, st, a.expr.thenExpr) == Eval(m, st', a.expr.thenExpr)
    requires Get(st'.values, a.dst) == Masked(Eval(m, st, a.expr), m.WidthOf(a.dst))
    ensures Masked(Eval(m, st', a.expr), m.WidthOf(a.dst)) == Get(st'.values, a.dst)
  {
    var w := m.WidthOf(a.dst);
    LowLow(Get(st.values, a.dst), w, w);
    assert Eval(m, st', a.expr.elseExpr) == Get(st'.values, a.dst);
    assert Eval(m, st, a.expr.elseExpr) == Get(st.values, a.dst);
  }

  /** The part of `RankOk` that concerns assignments. */
  ghost predicate AssignRankOk(m: Module, r: map<Signal, nat>) {
    && (forall i, j | 0 <= i < j < |m.assignments| :: m.assignments[i].dst != m.assignments[j].dst)
    && (forall j, b | 0 <= j < |m.assignments| && b in AssignDeps(m.assignments[j]) ::
          Rk(r, m.assignments[j].dst) > Rk(r, b))
  }

  /** All assignments whose destination has rank at most k are settled, and of
      the next rank those before the i-th. */
  ghost predicate AssignsUpto(m: Module, st: Store, r: map<Signal, nat>, k: nat, i: nat) {
    forall j | 0 <= j < |m.assignments| ::
      Rk(r, m.assignments[j].dst) <= k || (Rk(r, m.assignments[j].dst) == k + 1 && j < i)
      ==> AssignOk(m, st, m.assignments[j])
  }

  /** Executing one assignment never spoils a settled one of lower or equal
      rank. */
  lemma AssignOneRank(m: Module, mems: Memories, p: Progress, r: map<Signal, nat>, k: nat, i: nat)
    requires i < |m.assignments| && AssignRankOk(m, r)
    requires AssignsUpto(m, Store(p.values, mems), r, k, i)
    ensures AssignsUpto(m, Store(AssignOne(m, mems, p, m.assignments[i]).values, mems), r, k, i + 1)
    ensures forall x | Rk(r, x) <= k ::
              Get(AssignOne(m, mems, p, m.assignments[i]).values, x) == Get(p.values, x)
  {
    var a := m.assignments[i];
    var v, w := p.values, AssignOne(m, mems, p, a).values;
    if Rk(r, a.dst) <= k {
      assert AssignOk(m, Store(v, mems), a);
      assert w == v;
    }
    AssignOneOk(m, mems, p, a);
    forall j | 0 <= j < |m.assignments| && j != i && Rk(r, m.assignments[j].dst) <= k + 1
               && AssignOk(m, Store(v, mems), m.assignments[j])
      ensures AssignOk(m, Store(w, mems), m.assignments[j])
    {
      var b := m.assignments[j];
      assert b.dst != a.dst;
      AssignOkFrame(m, v, w, mems, b);
    }
  }

  /** One sweep over the assignments settles one more rank. */
  lemma {:induction false} AssignFromRank(m: Module, mems: Memories, p: Progress, r: map<Signal, nat>, k: nat, i: nat)
    requires i <= |m.assignments| && AssignRankOk(m, r)
    requires AssignsUpto(m, Store(p.values, mems), r, k, i)
    ensures AssignsUpto(m, Store(AssignFrom(m, mems, p, i).values, mems), r, k, |m.assignments|)
    ensures forall x | Rk(r, x) <= k ::
              Get(AssignFrom(m, mems, p, i).values, x) == Get(p.values, x)
    decreases |m.assignments| - i
  {
    if i < |m.assignments| {
      AssignOneRank(m, mems, p, r, k, i);
      AssignFromRank(m, mems, AssignOne(m, mems, p, m.assignments[i]), r, k, i + 1);
    }
  }

  // ------------------------------------------------------------- instances

  lemma {:induction false} DriveFrame(inst: Instance, values: Values, kid: Values, i: nat, x: Signal)
    requires i <= |inst.inputs|
    requires forall j | 0 <= j < i :: inst.inputs[j].port != x
    ensures Get(Drive(inst, values, kid, i), x) == Get(kid, x)
    ensures x in Drive(inst, values, kid, i) <==> x in kid
  {
    if i > 0 {
      DriveFrame(inst, values, kid, i - 1, x);
    }
  }

  lemma {:induction false} DriveSets(inst: Instance, values: Values, kid: Values, i: nat, j: nat)
    requires j < i <= |inst.inputs|
    requires forall a, b | 0 <= a < b < |inst.inputs| :: inst.inputs[a].port != inst.inputs[b].port
    ensures inst.inputs[j].port in Drive(inst, values, kid, i)
    ensures Drive(inst, values, kid, i)[inst.inputs[j].port]
         == Masked(Get(values, inst.inputs[j].parent), PortWidth(inst.child.m, inst.inputs[j].port))
  {
    if j < i - 1 {
      DriveSets(inst, values, kid, i - 1, j);
    }
  }

  lemma {:induction false} DriveFixed(inst: Instance, values: Values, kid: State, i: nat)
    requires i <= |inst.inputs|
    requires forall c | c in inst.inputs :: InputOk(inst, values, kid, c)
    ensures Drive(inst, values, kid.Values(), i) == kid.Values()
  {
    if i > 0 {
      DriveFixed(inst, values, kid, i - 1);
      assert InputOk(inst, values, kid, inst.inputs[i - 1]);
    }
  }

  /** A driven child has its inputs in order and everything else untouched. */
  lemma DriveKidOk(m: Module, inst: Instance, values: Values, kid: State)
    requires ConnectionsOk(m, inst)
    ensures forall c | c in inst.inputs :: InputOk(inst, values, DriveKid(inst, values, kid), c)
    ensures forall x | !IsInput(inst.child.m, x) ::
              Get(DriveKid(inst, values, kid).Values(), x) == Get(kid.Values(), x)
  {
    var n := |inst.inputs|;
    forall c | c in inst.inputs
      ensures InputOk(inst, values, DriveKid(inst, values, kid), c)
    {
      var j :| 0 <= j < n && inst.inputs[j] == c;
      DriveSets(inst, values, kid.Values(), n, j);
    }
    forall x | !IsInput(inst.child.m, x)
      ensures Get(DriveKid(inst, values, kid).Values(), x) == Get(kid.Values(), x)
    {
      forall j | 0 <= j < n
        ensures inst.inputs[j].port != x
      {
        assert inst.inputs[j] in inst.inputs;
      }
      DriveFrame(inst, values, kid.Values(), n, x);
    }
  }

  lemma {:induction false} OutputsFrame(inst: Instance, kid: State, p: Progress, o: nat, x: Signal)
    requires o <= |inst.outputs|
    requires forall n | 0 <= n < o :: inst.outputs[n].parent != x
    ensures Get(OutputsOf(inst, kid, p, o).values, x) == Get(p.values, x)
    ensures x in OutputsOf(inst, kid, p, o).values <==> x in p.values
  {
    if o > 0 {
      OutputsFrame(inst, kid, p, o - 1, x);
    }
  }

  lemma {:induction false} OutputsSet(inst: Instance, kid: State, p: Progress, o: nat, n: nat)
    requires n < o <= |inst.outputs|
    requires forall a, b | 0 <= a < b < |inst.outputs| :: inst.outputs[a].parent != inst.outputs[b].parent
    ensures OutputOk(inst, OutputsOf(inst, kid, p, o).values, kid, inst.outputs[n])
  {
    if n < o - 1 {
      OutputsSet(inst, kid, p, o - 1, n);
    }
  }

  lemma {:induction false} OutputsStill(inst: Instance, kid: State, p: Progress, o: nat)
    requires o <= |inst.outputs|
    ensures p.changed ==> OutputsOf(inst, kid, p, o).changed
    ensures !OutputsOf(inst, kid, p, o).changed ==>
              && OutputsOf(inst, kid, p, o).values == p.values
              && forall n | 0 <= n < o :: OutputOk(inst, p.values, kid, inst.outputs[n])
  {
    if o > 0 {
      OutputsStill(inst, kid, p, o - 1);
    }
  }

  lemma {:induction false} OutputsFixed(inst: Instance, kid: State, p: Progress, o: nat)
    requires o <= |inst.outputs|
    requires forall c | c in inst.outputs :: OutputOk(inst, p.values, kid, c)
    ensures OutputsOf(inst, kid, p, o) == p
  {
    if o > 0 {
      OutputsFixed(inst, kid, p, o - 1);
      assert OutputOk(inst, p.values, kid, inst.outputs[o - 1]);
    }
  }

  lemma {:induction false} CollectFrame(t: Tree, kids: seq<State>, p: Progress, i: nat, x: Signal)
    requires i <= |t.instances| == |kids|
    requires forall n, c | 0 <= n < i && c in t.instances[n].outputs :: c.parent != x
    ensures Get(CollectOutputs(t, kids, p, i).values, x) == Get(p.values, x)
    ensures x in CollectOutputs(t, kids, p, i).values <==> x in p.values
  {
    if i > 0 {
      CollectFrame(t, kids, p, i - 1, x);
      OutputsFrame(t.instances[i - 1], kids[i - 1], CollectOutputs(t, kids, p, i - 1),
                   |t.instances[i - 1].outputs|, x);
    }
  }

  /** With one driver per signal, every instance output ends up in its parent. */
  lemma {:induction false} CollectSets(t: Tree, kids: seq<State>, p: Progress, i: nat, n: nat, c: Conn)
    requires n < i <= |t.instances| == |kids| && OneDriver(t)
    requires c in t.instances[n].outputs
    ensures OutputOk(t.instances[n], CollectOutputs(t, kids, p, i).values, kids[n], c)
  {
    var before := CollectOutputs(t, kids, p, i - 1);
    var inst := t.instances[i - 1];
    if n < i - 1 {
      CollectSets(t, kids, p, i - 1, n, c);
      OutputsFrame(inst, kids[i - 1], before, |inst.outputs|, c.parent);
    } else {
      var o :| 0 <= o < |inst.outputs| && inst.outputs[o] == c;
      OutputsSet(inst, kids[n], before, |inst.outputs|, o);
    }
  }

  lemma {:induction false} CollectStill(t: Tree, kids: seq<State>, p: Progress, i: nat)
    requires i <= |t.instances| == |kids|
    ensures p.changed ==> CollectOutputs(t, kids, p, i).changed
    ensures !CollectOutputs(t, kids, p, i).changed ==>
              && CollectOutputs(t, kids, p, i).values == p.values
              && forall n, c | 0 <= n < i && c in t.instances[n].outputs ::
                   OutputOk(t.instances[n], p.values, kids[n], c)
  {
    if i > 0 {
      var inst := t.instances[i - 1];
      CollectStill(t, kids, p, i - 1);
      OutputsStill(inst, kids[i - 1], CollectOutputs(t, kids, p, i - 1), |inst.outputs|);
    }
  }

  lemma {:induction false} CollectFixed(t: Tree, kids: seq<State>, p: Progress, i: nat)
    requires i <= |t.instances| == |kids|
    requires forall n, c | 0 <= n < i && c in t.instances[n].outputs ::
               OutputOk(t.instances[n], p.values, kids[n], c)
    ensures CollectOutputs(t, kids, p, i) == p
  {
    if i > 0 {
      CollectFixed(t, kids, p, i - 1);
      OutputsFixed(t.instances[i - 1], kids[i - 1], p, |t.instances[i - 1].outputs|);
    }
  }
}
