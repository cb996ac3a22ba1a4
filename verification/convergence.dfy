/** The bounded settling loop settles every level of the design. */
module Convergence {
  import opened Rtl
  import opened Semantics
  import opened Simulation
  import opened Paths
  import opened Depends
  import opened Settling

  // ------------------------------------------------- what settling leaves alone

  lemma DrivenIsDrivable(t: Tree, x: Signal)
    requires Sane(t) && Driven(t, x)
    ensures Drivable(t.m, x)
  {
    if Assigned(t.m, x) {
      var a :| a in t.m.assignments && a.dst == x;
      var j :| 0 <= j < |t.m.assignments| && t.m.assignments[j] == a;
    } else {
      var i, oc :| 0 <= i < |t.instances| && oc in t.instances[i].outputs && oc.parent == x;
      assert ConnectionsOk(t.m, t.instances[i]);
    }
  }

  /** An asynchronously reset register. */
  predicate AsyncReg(m: Module, x: Signal) {
    m.Owns(x) && HasAsync(m.signals[x.id])
  }

  lemma ResetsFrame(m: Module, v: Values, x: Signal)
    requires !AsyncReg(m, x)
    ensures Get(ApplyResets(m, v), x) == Get(v, x)
    ensures x in ApplyResets(m, v) <==> x in v
  {
  }

  lemma PassFrame(t: Tree, s: State, x: Signal)
    requires Fits(t, s) && !Driven(t, x) && !AsyncReg(t.m, x)
    ensures Get(Pass(t, s).state.Values(), x) == Get(s.Values(), x)
    ensures x in Pass(t, s).state.Values() <==> x in s.Values()
  {
    ResetsFrame(t.m, s.Values(), x);
    forall j | 0 <= j < |t.m.assignments|
      ensures t.m.assignments[j].dst != x
    {
      assert t.m.assignments[j] in t.m.assignments;
    }
    AssignFromFrame(t.m, s.store.mems, Progress(AfterResets(t, s), AfterResets(t, s) != s.Values()), 0, x);
    CollectFrame(t, AfterKids(t, s), AfterAssigns(t, s), |s.kids|, x);
    ResetsFrame(t.m, AfterOutputs(t, s).values, x);
  }

  lemma {:induction false} LoopFrame(t: Tree, s: State, n: nat, x: Signal)
    requires Fits(t, s) && !Driven(t, x) && !AsyncReg(t.m, x)
    ensures Get(Loop(t, s, n).Values(), x) == Get(s.Values(), x)
    ensures x in Loop(t, s, n).Values() <==> x in s.Values()
    decreases n
  {
    if n > 0 {
      PassFrame(t, s, x);
      LoopStep(t, s, n);
      if Pass(t, s).changed && n > 1 {
        LoopFrame(t, Pass(t, s).state, n - 1, x);
      }
    }
  }

  /** Registers, memories and other undriven signals agree, at every level;
      input ports may differ. */
  ghost predicate SameStored(t: Tree, a: State, b: State)
    requires Fits(t, a) && Fits(t, b)
    decreases t
  {
    && a.store.mems == b.store.mems
    && (forall x | !Driven(t, x) && !IsInput(t.m, x) :: Get(a.Values(), x) == Get(b.Values(), x))
    && (forall i | 0 <= i < |t.instances| :: SameStored(t.Child(i), a.kids[i], b.kids[i]))
  }

  ghost predicate SameInputs(t: Tree, a: State, b: State) {
    forall x | IsInput(t.m, x) :: Get(a.Values(), x) == Get(b.Values(), x)
  }

  lemma {:induction false} SameStoredTrans(t: Tree, a: State, b: State, c: State)
    requires Fits(t, a) && Fits(t, b) && Fits(t, c)
    requires SameStored(t, a, b) && SameStored(t, b, c)
    ensures SameStored(t, a, c)
    decreases t
  {
    forall i | 0 <= i < |t.instances|
      ensures SameStored(t.Child(i), a.kids[i], c.kids[i])
    {
      SameStoredTrans(t.Child(i), a.kids[i], b.kids[i], c.kids[i]);
    }
    forall x | !Driven(t, x) && !IsInput(t.m, x)
      ensures Get(a.Values(), x) == Get(c.Values(), x)
    {
      assert Get(a.Values(), x) == Get(b.Values(), x);
    }
  }

  lemma {:induction false} SameStoredRefl(t: Tree, a: State, b: State)
    requires Fits(t, a) && Fits(t, b) && a.kids == b.kids && a.store.mems == b.store.mems
    requires forall x | !IsInput(t.m, x) :: Get(a.Values(), x) == Get(b.Values(), x)
    ensures SameStored(t, a, b)
    decreases t
  {
    forall i | 0 <= i < |t.instances|
      ensures SameStored(t.Child(i), a.kids[i], b.kids[i])
    {
      SameStoredRefl(t.Child(i), a.kids[i], b.kids[i]);
    }
  }

  /** Driving and settling a child keeps its registers, and its inputs are the
      driven ones. */
  lemma {:induction false} SettleKidStored(t: Tree, values: Values, kids: seq<State>, i: nat)
    requires Shaped(t, kids) && i < |t.instances|
    requires Sane(t) && Pure(t.Child(i))
    ensures SameStored(t.Child(i), kids[i], SettleKids(t, values, kids)[i])
    ensures forall c | c in t.instances[i].inputs ::
              InputOk(t.instances[i], values, SettleKids(t, values, kids)[i], c)
    decreases t, 0, 0
  {
    var inst, u := t.instances[i], t.Child(i);
    var driven := DriveKid(inst, values, kids[i]);
    DriveKidOk(t.m, inst, values, kids[i]);
    SameStoredRefl(u, kids[i], driven);
    SettleStored(u, driven);
    SameStoredTrans(u, kids[i], driven, Settle(u, driven));
  }

  /** Settling a design without asynchronous resets changes only what is driven. */
  lemma {:induction false} SettleStored(t: Tree, s: State)
    requires Fits(t, s) && Sane(t) && Pure(t)
    ensures SameStored(t, s, Settle(t, s))
    ensures forall x | IsInput(t.m, x) ::
              && Get(Settle(t, s).Values(), x) == Get(s.Values(), x)
              && (x in Settle(t, s).Values() <==> x in s.Values())
    decreases t, 3, 0
  {
    LoopStored(t, s, Limit(t));
    forall x | IsInput(t.m, x)
      ensures Get(Settle(t, s).Values(), x) == Get(s.Values(), x)
      ensures x in Settle(t, s).Values() <==> x in s.Values()
    {
      if Driven(t, x) {
        DrivenIsDrivable(t, x);
      }
      LoopFrame(t, s, Limit(t), x);
    }
  }

  lemma {:induction false} LoopStored(t: Tree, s: State, n: nat)
    requires Fits(t, s) && Sane(t) && Pure(t)
    ensures SameStored(t, s, Loop(t, s, n))
    decreases t, 2, n
  {
    if n == 0 {
      SameStoredRefl(t, s, s);
    } else {
      var s' := Pass(t, s).state;
      PassStored(t, s);
      LoopStep(t, s, n);
      if Pass(t, s).changed && n > 1 {
        LoopStored(t, s', n - 1);
        SameStoredTrans(t, s, s', Loop(t, s', n - 1));
      }
    }
  }

  lemma {:induction false} PassStored(t: Tree, s: State)
    requires Fits(t, s) && Sane(t) && Pure(t)
    ensures SameStored(t, s, Pass(t, s).state)
    decreases t, 1, 0
  {
    PassSteps(t, s);
    KidsStored(t, s);
    UndrivenStored(t, s);
    StoredFrom(t, s, Pass(t, s).state);
  }

  lemma {:induction false} KidsStored(t: Tree, s: State)
    requires Fits(t, s) && Sane(t) && Pure(t)
    ensures forall i | 0 <= i < |t.instances| :: SameStored(t.Child(i), s.kids[i], AfterKids(t, s)[i])
    decreases t, 0, 1
  {
    forall i | 0 <= i < |t.instances|
      ensures SameStored(t.Child(i), s.kids[i], AfterKids(t, s)[i])
    {
      SettleKidStored(t, AfterAssigns(t, s).values, s.kids, i);
    }
  }

  lemma UndrivenStored(t: Tree, s: State)
    requires Fits(t, s) && Pure(t)
    ensures forall x | !Driven(t, x) && !IsInput(t.m, x) ::
              Get(s.Values(), x) == Get(Pass(t, s).state.Values(), x)
  {
    forall x | !Driven(t, x) && !IsInput(t.m, x)
      ensures Get(s.Values(), x) == Get(Pass(t, s).state.Values(), x)
    {
      PassFrame(t, s, x);
    }
  }

  lemma StoredFrom(t: Tree, a: State, b: State)
    requires Fits(t, a) && Fits(t, b) && a.store.mems == b.store.mems
    requires forall x | !Driven(t, x) && !IsInput(t.m, x) :: Get(a.Values(), x) == Get(b.Values(), x)
    requires forall i | 0 <= i < |t.instances| :: SameStored(t.Child(i), a.kids[i], b.kids[i])
    ensures SameStored(t, a, b)
  {
  }

  // --------------------------------------------------- values are determined

  lemma EveryInputConnected(m: Module, inst: Instance, y: Signal) returns (c: Conn)
    requires ConnectionsOk(m, inst) && IsInput(inst.child.m, y)
    ensures c in inst.inputs && c.port == y
  {
    assert inst.child.m.Handle(y.id) == y;
    c :| c in inst.inputs && c.port == y;
  }

  /** The inputs of `t` on which the value of `x` may depend. */
  ghost predicate AgreeBelow(t: Tree, a: State, b: State, x: Signal) {
    forall y | IsInput(t.m, y) && (y == x || PortDep(t, x, y)) ::
      Get(a.Values(), y) == Get(b.Values(), y)
  }

  lemma AgreeBelowStep(t: Tree, a: State, b: State, x: Signal, y: Signal)
    requires Edge(t, x, y) && AgreeBelow(t, a, b, x)
    ensures AgreeBelow(t, a, b, y)
  {
    StepReaches(Edges(t), x, y);
    forall z | IsInput(t.m, z) && (z == y || PortDep(t, y, z))
      ensures Get(a.Values(), z) == Get(b.Values(), z)
    {
      if z != y {
        ReachesTrans(Edges(t), x, y, z);
      }
      assert PortDep(t, x, z);
    }
  }

  /** Two settled states of one design over the same stored values. */
  ghost predicate Comparable(t: Tree, r: map<Signal, nat>, a: State, b: State) {
    && Fits(t, a) && Fits(t, b)
    && Sane(t) && Unheld(t) && Levelled(t) && RankOk(t, r)
    && Settled(t, a) && Settled(t, b) && SameStored(t, a, b)
  }

  lemma ComparableKid(t: Tree, r: map<Signal, nat>, a: State, b: State, i: nat)
    returns (rc: map<Signal, nat>)
    requires Comparable(t, r, a, b) && i < |t.instances|
    ensures Comparable(t.Child(i), rc, a.kids[i], b.kids[i])
  {
    assert Levelled(t.Child(i));
    rc :| RankOk(t.Child(i), rc);
  }

  /** Port-precise non-interference: in a settled design a signal is a function
      of the stored values and of those inputs its dependencies reach. */
  lemma {:induction false} Determined(t: Tree, r: map<Signal, nat>, a: State, b: State, x: Signal)
    requires Comparable(t, r, a, b) && AgreeBelow(t, a, b, x)
    ensures Get(a.Values(), x) == Get(b.Values(), x)
    decreases t, Rk(r, x), 1
  {
    if Assigned(t.m, x) {
      DeterminedAssigned(t, r, a, b, x);
    } else if OutputDriven(t, x) {
      var i, oc :| 0 <= i < |t.instances| && oc in t.instances[i].outputs && oc.parent == x;
      DeterminedOutput(t, r, a, b, i, oc);
    } else if !IsInput(t.m, x) {
      assert !Driven(t, x);
    }
  }

  lemma {:induction false} DeterminedAssigned(t: Tree, r: map<Signal, nat>, a: State, b: State, x: Signal)
    requires Comparable(t, r, a, b) && AgreeBelow(t, a, b, x) && Assigned(t.m, x)
    ensures Get(a.Values(), x) == Get(b.Values(), x)
    decreases t, Rk(r, x), 0
  {
    var asg :| asg in t.m.assignments && asg.dst == x;
    var j :| 0 <= j < |t.m.assignments| && t.m.assignments[j] == asg;
    forall y | y in ExprDeps(asg.expr)
      ensures Get(a.Values(), y) == Get(b.Values(), y)
    {
      assert !IsHold(t.m.assignments[j]);
      assert Edge(t, x, y);
      AgreeBelowStep(t, a, b, x, y);
      Determined(t, r, a, b, y);
    }
    EvalDeps(t.m, a.Values(), b.Values(), a.store.mems, asg.expr);
    assert AssignOk(t.m, a.store, t.m.assignments[j]);
    assert AssignOk(t.m, b.store, t.m.assignments[j]);
  }

  lemma {:induction false} DeterminedOutput(t: Tree, r: map<Signal, nat>, a: State, b: State, i: nat, oc: Conn)
    requires Comparable(t, r, a, b) && AgreeBelow(t, a, b, oc.parent)
    requires i < |t.instances| && oc in t.instances[i].outputs
    ensures Get(a.Values(), oc.parent) == Get(b.Values(), oc.parent)
    decreases t, Rk(r, oc.parent), 0
  {
    var rc := ComparableKid(t, r, a, b, i);
    forall y | IsInput(t.Child(i).m, y) && (y == oc.port || PortDep(t.Child(i), oc.port, y))
      ensures Get(a.kids[i].Values(), y) == Get(b.kids[i].Values(), y)
    {
      DeterminedPort(t, r, a, b, i, oc, y);
    }
    Determined(t.Child(i), rc, a.kids[i], b.kids[i], oc.port);
    assert OutputOk(t.instances[i], a.Values(), a.kids[i], oc);
    assert OutputOk(t.instances[i], b.Values(), b.kids[i], oc);
  }

  lemma {:induction false} DeterminedPort(
      t: Tree, r: map<Signal, nat>, a: State, b: State, i: nat, oc: Conn, y: Signal)
    requires Comparable(t, r, a, b) && AgreeBelow(t, a, b, oc.parent)
    requires i < |t.instances| && oc in t.instances[i].outputs
    requires IsInput(t.Child(i).m, y) && (y == oc.port || PortDep(t.Child(i), oc.port, y))
    ensures Get(a.kids[i].Values(), y) == Get(b.kids[i].Values(), y)
    decreases t, Rk(r, oc.parent), 0, 0
  {
    var inst := t.instances[i];
    assert ConnectionsOk(t.m, inst);
    var ic := EveryInputConnected(t.m, inst, y);
    InstanceEdge(t, i, oc, ic);
    AgreeBelowStep(t, a, b, oc.parent, ic.parent);
    Determined(t, r, a, b, ic.parent);
    assert InputOk(inst, a.Values(), a.kids[i], ic);
    assert InputOk(inst, b.Values(), b.kids[i], ic);
  }
}
