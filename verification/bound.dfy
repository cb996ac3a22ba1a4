/** The number of rounds of `eval_combinational` is enough: after k rounds every
    driven signal of rank at most k holds its final value. */
module Bound {
  import opened Rtl
  import opened Semantics
  import opened Simulation
  import opened Depends
  import opened Settling
  import opened Convergence

  /** What the settling theorem asks of a design: validated structure, chains
      that fit the bound, asynchronous resets only from input ports, and
      children without hold-muxes or asynchronous resets. */
  ghost predicate Settleable(t: Tree) {
    && Sane(t) && Levelled(t) && AsyncFromInputs(t.m)
    && forall i | 0 <= i < |t.instances| :: Pure(t.Child(i))
  }

  lemma PureSettleable(t: Tree)
    requires Sane(t) && Levelled(t) && Pure(t)
    ensures Settleable(t)
  {
  }

  lemma KidSettleable(t: Tree, i: nat)
    requires Settleable(t) && i < |t.instances|
    ensures Settleable(t.Child(i))
  {
    assert Pure(t.Child(i));
    PureSettleable(t.Child(i));
  }

  /** An output driven by an instance, ready for round k. */
  ghost predicate OutputSettled(t: Tree, s: State, i: nat, oc: Conn)
    requires Fits(t, s) && i < |t.instances|
  {
    && OutputOk(t.instances[i], s.Values(), s.kids[i], oc)
    && forall ic | ic in t.instances[i].inputs && PortDep(t.Child(i), oc.port, ic.port) ::
         InputOk(t.instances[i], s.Values(), s.kids[i], ic)
  }

  /** The state after k rounds: everything of rank at most k is settled. */
  ghost predicate Upto(t: Tree, s: State, r: map<Signal, nat>, k: nat)
    requires Fits(t, s)
  {
    && (k > 0 ==> ResetsOk(t.m, s.Values()))
    && (k > 0 ==> forall i | 0 <= i < |t.instances| :: Settled(t.Child(i), s.kids[i]))
    && AssignsUpto(t.m, s.store, r, k, 0)
    && forall i, oc | 0 <= i < |t.instances| && oc in t.instances[i].outputs
                      && Rk(r, oc.parent) <= k ::
         OutputSettled(t, s, i, oc)
  }

  lemma RankOfAssigns(t: Tree, r: map<Signal, nat>)
    requires Sane(t) && RankOk(t, r)
    ensures AssignRankOk(t.m, r)
  {
    forall j, b | 0 <= j < |t.m.assignments| && b in AssignDeps(t.m.assignments[j])
      ensures Rk(r, t.m.assignments[j].dst) > Rk(r, b)
    {
      assert Edge(t, t.m.assignments[j].dst, b);
    }
  }

  /** Asserted resets have been applied and stay applied as long as inputs and
      registers keep their values. */
  lemma ResetsStable(m: Module, v: Values, w: Values)
    requires AsyncFromInputs(m)
    requires forall x | IsInput(m, x) || AsyncReg(m, x) ::
               Get(w, x) == Get(ApplyResets(m, v), x)
               && (x in w <==> x in ApplyResets(m, v))
    ensures ApplyResets(m, w) == w
  {
    var v0 := ApplyResets(m, v);
    assert AsyncWrites(m, w) == AsyncWrites(m, v) by {
      forall i | 0 <= i < |m.signals| && HasAsync(m.signals[i])
        ensures Asserted(w, m.signals[i].kind.reset.value)
                <==> Asserted(v, m.signals[i].kind.reset.value)
      {
        var x := m.signals[i].kind.reset.value.signal;
        assert IsInput(m, x);
        ResetsFrame(m, v, x);
      }
    }
    forall x | x in AsyncWrites(m, w)
      ensures x in w && w[x] == AsyncWrites(m, w)[x]
    {
      assert AsyncReg(m, x);
    }
  }

  lemma KidsAfter(t: Tree, s: State, i: nat)
    requires Fits(t, s) && Settleable(t) && i < |t.instances|
    ensures SameStored(t.Child(i), s.kids[i], AfterKids(t, s)[i])
    ensures forall c | c in t.instances[i].inputs ::
              InputOk(t.instances[i], AfterAssigns(t, s).values, AfterKids(t, s)[i], c)
  {
    SettleKidStored(t, AfterAssigns(t, s).values, s.kids, i);
  }

  /** Ranks up to k are already final when the assignments of the round are done. */
  lemma AssignsAfter(t: Tree, s: State, r: map<Signal, nat>, k: nat)
    requires Fits(t, s) && Settleable(t) && RankOk(t, r) && Upto(t, s, r, k)
    ensures AssignsUpto(t.m, Store(AfterAssigns(t, s).values, s.store.mems), r, k, |t.m.assignments|)
    ensures k > 0 ==> forall x | Rk(r, x) <= k ::
              Get(AfterAssigns(t, s).values, x) == Get(s.Values(), x)
  {
    RankOfAssigns(t, r);
    var v0 := AfterResets(t, s);
    assert AssignsUpto(t.m, Store(v0, s.store.mems), r, k, 0) by {
      if k > 0 {
        assert Store(v0, s.store.mems) == s.store;
      }
    }
    AssignFromRank(t.m, s.store.mems, Progress(v0, v0 != s.Values()), r, k, 0);
  }

  /** An instance output of rank at most k gets the value it already has. */
  lemma OutputStable(t: Tree, s: State, r: map<Signal, nat>, k: nat, i: nat, oc: Conn)
    requires Fits(t, s) && Settleable(t) && RankOk(t, r) && Upto(t, s, r, k)
    requires i < |t.instances| && oc in t.instances[i].outputs && Rk(r, oc.parent) <= k
    requires Settled(t.Child(i), AfterKids(t, s)[i])
    ensures PortValue(t.instances[i], AfterKids(t, s)[i], oc) == Get(s.Values(), oc.parent)
  {
    var inst, u := t.instances[i], t.Child(i);
    var before, after := s.kids[i], AfterKids(t, s)[i];
    assert 1 <= Rk(r, oc.parent);
    AssignsAfter(t, s, r, k);
    KidsAfter(t, s, i);
    assert Levelled(u) && Sane(u) && Pure(u);
    var rc :| RankOk(u, rc);
    PureUnheld(u);
    assert Comparable(u, rc, before, after);
    assert OutputSettled(t, s, i, oc);
    forall y | IsInput(u.m, y) && (y == oc.port || PortDep(u, oc.port, y))
      ensures Get(before.Values(), y) == Get(after.Values(), y)
    {
      assert ConnectionsOk(t.m, inst);
      var ic := EveryInputConnected(t.m, inst, y);
      InstanceEdge(t, i, oc, ic);
      assert Rk(r, ic.parent) < Rk(r, oc.parent);
      assert InputOk(inst, s.Values(), before, ic);
      assert InputOk(inst, AfterAssigns(t, s).values, after, ic);
    }
    Determined(u, rc, before, after, oc.port);
  }

  lemma NotOutputDriven(t: Tree, x: Signal)
    requires !OutputDriven(t, x)
    ensures forall n, c | 0 <= n < |t.instances| && c in t.instances[n].outputs :: c.parent != x
  {
  }

  /** Signals no instance drives keep their value through the output writes. */
  lemma OutputsLeave(t: Tree, s: State, x: Signal)
    requires Fits(t, s) && !OutputDriven(t, x)
    ensures Get(AfterOutputs(t, s).values, x) == Get(AfterAssigns(t, s).values, x)
    ensures x in AfterOutputs(t, s).values <==> x in AfterAssigns(t, s).values
  {
    NotOutputDriven(t, x);
    CollectFrame(t, AfterKids(t, s), AfterAssigns(t, s), |s.kids|, x);
  }

  lemma AssignedNotOutput(t: Tree, j: nat)
    requires OneDriver(t) && j < |t.m.assignments|
    ensures !OutputDriven(t, t.m.assignments[j].dst)
  {
  }

  /** The resets applied at the start of a round are still in force at its end. */
  lemma RoundResets(t: Tree, s: State)
    requires Fits(t, s) && Settleable(t)
    ensures ApplyResets(t.m, AfterOutputs(t, s).values) == AfterOutputs(t, s).values
  {
    var w := AfterOutputs(t, s).values;
    forall x | IsInput(t.m, x) || AsyncReg(t.m, x)
      ensures Get(w, x) == Get(AfterResets(t, s), x) && (x in w <==> x in AfterResets(t, s))
    {
      if Driven(t, x) {
        DrivenIsDrivable(t, x);
      }
      OutputsLeave(t, s, x);
      forall j | 0 <= j < |t.m.assignments|
        ensures t.m.assignments[j].dst != x
      {
        assert t.m.assignments[j] in t.m.assignments;
      }
      var v0 := AfterResets(t, s);
      AssignFromFrame(t.m, s.store.mems, Progress(v0, v0 != s.Values()), 0, x);
    }
    ResetsStable(t.m, s.Values(), w);
  }

  ghost predicate KidsSettled(t: Tree, kids: seq<State>)
    requires Shaped(t, kids)
  {
    forall i | 0 <= i < |t.instances| :: Settled(t.Child(i), kids[i])
  }

  /** Ranks up to k are final after the output writes as well. */
  lemma OutputsAfter(t: Tree, s: State, r: map<Signal, nat>, k: nat, x: Signal)
    requires Fits(t, s) && Settleable(t) && RankOk(t, r) && Upto(t, s, r, k)
    requires KidsSettled(t, AfterKids(t, s)) && Rk(r, x) <= k
    ensures Get(AfterOutputs(t, s).values, x) == Get(AfterAssigns(t, s).values, x)
  {
    if OutputDriven(t, x) {
      var i, oc :| 0 <= i < |t.instances| && oc in t.instances[i].outputs && oc.parent == x;
      assert 1 <= Rk(r, oc.parent);
      OutputStable(t, s, r, k, i, oc);
      CollectSets(t, AfterKids(t, s), AfterAssigns(t, s), |s.kids|, i, oc);
      AssignsAfter(t, s, r, k);
    } else {
      OutputsLeave(t, s, x);
    }
  }

  /** Assignments of rank at most k + 1 hold at the end of the round. */
  lemma RoundAssigns(t: Tree, s: State, r: map<Signal, nat>, k: nat)
    requires Fits(t, s) && Settleable(t) && RankOk(t, r) && Upto(t, s, r, k)
    requires KidsSettled(t, AfterKids(t, s))
    ensures AssignsUpto(t.m, Store(AfterOutputs(t, s).values, s.store.mems), r, k + 1, 0)
  {
    AssignsAfter(t, s, r, k);
    RankOfAssigns(t, r);
    var v, w := AfterAssigns(t, s).values, AfterOutputs(t, s).values;
    forall j | 0 <= j < |t.m.assignments| && Rk(r, t.m.assignments[j].dst) <= k + 1
      ensures AssignOk(t.m, Store(w, s.store.mems), t.m.assignments[j])
    {
      var a := t.m.assignments[j];
      AssignedNotOutput(t, j);
      OutputsLeave(t, s, a.dst);
      forall x | x in AssignDeps(a)
        ensures Get(v, x) == Get(w, x)
      {
        OutputsAfter(t, s, r, k, x);
      }
      AssignOkFrame(t.m, v, w, s.store.mems, a);
    }
  }

  /** A child input whose parent has rank at most k was driven with its final
      value. */
  lemma RoundInput(t: Tree, s: State, r: map<Signal, nat>, k: nat, i: nat, ic: Conn)
    requires Fits(t, s) && Settleable(t) && RankOk(t, r) && Upto(t, s, r, k)
    requires KidsSettled(t, AfterKids(t, s))
    requires i < |t.instances| && ic in t.instances[i].inputs && Rk(r, ic.parent) <= k
    ensures InputOk(t.instances[i], AfterOutputs(t, s).values, AfterKids(t, s)[i], ic)
  {
    KidsAfter(t, s, i);
    OutputsAfter(t, s, r, k, ic.parent);
  }

  /** One round settles one more rank. */
  lemma RoundRank(t: Tree, s: State, r: map<Signal, nat>, k: nat)
    requires Fits(t, s) && Settleable(t) && RankOk(t, r) && Upto(t, s, r, k)
    requires KidsSettled(t, AfterKids(t, s))
    ensures Upto(t, Pass(t, s).state, r, k + 1)
    ensures forall i, ic | 0 <= i < |t.instances| && ic in t.instances[i].inputs
                           && Rk(r, ic.parent) <= k ::
              InputOk(t.instances[i], Pass(t, s).state.Values(), Pass(t, s).state.kids[i], ic)
  {
    PassSteps(t, s);
    RoundResets(t, s);
    RoundAssigns(t, s, r, k);
    var s' := Pass(t, s).state;
    forall i, ic | 0 <= i < |t.instances| && ic in t.instances[i].inputs
                   && Rk(r, ic.parent) <= k
      ensures InputOk(t.instances[i], s'.Values(), s'.kids[i], ic)
    {
      RoundInput(t, s, r, k, i, ic);
    }
    forall i, oc | 0 <= i < |t.instances| && oc in t.instances[i].outputs
                   && Rk(r, oc.parent) <= k + 1
      ensures OutputSettled(t, s', i, oc)
    {
      CollectSets(t, AfterKids(t, s), AfterAssigns(t, s), |s.kids|, i, oc);
      forall ic | ic in t.instances[i].inputs && PortDep(t.Child(i), oc.port, ic.port)
        ensures InputOk(t.instances[i], s'.Values(), s'.kids[i], ic)
      {
        InstanceEdge(t, i, oc, ic);
      }
    }
    assert s'.store == Store(AfterOutputs(t, s).values, s.store.mems);
  }

  /** A round that changes nothing leaves a settled state. */
  lemma StillRound(t: Tree, s: State)
    requires Fits(t, s) && Settleable(t)
    requires KidsSettled(t, AfterKids(t, s)) && !Pass(t, s).changed
    ensures Settled(t, Pass(t, s).state)
  {
    PassSteps(t, s);
    var s' := Pass(t, s).state;
    var v0 := AfterResets(t, s);
    CollectStill(t, AfterKids(t, s), AfterAssigns(t, s), |s.kids|);
    AssignFromStill(t.m, s.store.mems, Progress(v0, v0 != s.Values()), 0);
    assert s'.store == Store(v0, s.store.mems);
    forall i | 0 <= i < |t.instances|
      ensures forall c | c in t.instances[i].inputs ::
                InputOk(t.instances[i], s'.Values(), s'.kids[i], c)
    {
      KidsAfter(t, s, i);
    }
  }

  /** When every rank is covered the state is settled. */
  lemma FullyCovered(t: Tree, s: State, r: map<Signal, nat>)
    requires Fits(t, s) && RankOk(t, r) && Upto(t, s, r, Limit(t))
    requires forall i, ic | 0 <= i < |t.instances| && ic in t.instances[i].inputs ::
               InputOk(t.instances[i], s.Values(), s.kids[i], ic)
    ensures Settled(t, s)
  {
    forall i | 0 <= i < |t.instances|
      ensures forall c | c in t.instances[i].outputs ::
                OutputOk(t.instances[i], s.Values(), s.kids[i], c)
    {
      forall c | c in t.instances[i].outputs
        ensures OutputOk(t.instances[i], s.Values(), s.kids[i], c)
      {
        assert OutputSettled(t, s, i, c);
      }
    }
  }

  /** The bounded loop settles every level: `eval_combinational` ends with every
      equation of the design satisfied. */
  lemma {:induction false} SettleSettles(t: Tree, s: State)
    requires Fits(t, s) && Settleable(t)
    ensures Settled(t, Settle(t, s))
    decreases t, 1, 0
  {
    var r :| RankOk(t, r);
    assert Upto(t, s, r, 0);
    LoopSettles(t, s, r, 0, Limit(t));
  }

  lemma {:induction false} KidsSettle(t: Tree, s: State)
    requires Fits(t, s) && Settleable(t)
    ensures KidsSettled(t, AfterKids(t, s))
    decreases t, 0, 0
  {
    forall i | 0 <= i < |t.instances|
      ensures Settled(t.Child(i), AfterKids(t, s)[i])
    {
      KidSettleable(t, i);
      SettleSettles(t.Child(i), DriveKid(t.instances[i], AfterAssigns(t, s).values, s.kids[i]));
    }
  }

  lemma {:induction false} LoopSettles(t: Tree, s: State, r: map<Signal, nat>, k: nat, n: nat)
    requires Fits(t, s) && Settleable(t) && RankOk(t, r) && Upto(t, s, r, k)
    requires n > 0 && k + n == Limit(t)
    ensures Settled(t, Loop(t, s, n))
    decreases t, 0, n
  {
    KidsSettle(t, s);
    LoopStep(t, s, n);
    if !Pass(t, s).changed {
      StillRound(t, s);
    } else if n == 1 {
      LastRound(t, s, r, k);
    } else {
      RoundRank(t, s, r, k);
      LoopSettles(t, Pass(t, s).state, r, k + 1, n - 1);
    }
  }

  lemma LastRound(t: Tree, s: State, r: map<Signal, nat>, k: nat)
    requires Fits(t, s) && Settleable(t) && RankOk(t, r) && Upto(t, s, r, k)
    requires KidsSettled(t, AfterKids(t, s)) && k + 1 == Limit(t)
    ensures Settled(t, Pass(t, s).state)
  {
    var s' := Pass(t, s).state;
    RoundRank(t, s, r, k);
    forall i, ic | 0 <= i < |t.instances| && ic in t.instances[i].inputs
      ensures InputOk(t.instances[i], s'.Values(), s'.kids[i], ic)
    {
      assert Rk(r, ic.parent) <= k;
    }
    FullyCovered(t, s', r);
  }
}
