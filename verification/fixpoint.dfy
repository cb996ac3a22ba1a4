/** The settled state is a fixpoint of the simulator and the only one over given
    inputs and stored values, so neither earlier wire values, nor the order of
    `set` calls, nor the order of the assignments can be observed. */
module Fixpoint {
  import opened Words
  import opened Rtl
  import opened Semantics
  import opened Simulation
  import opened Depends
  import opened Settling
  import opened Convergence
  import opened Bound
  import Distinct

  /** Settling a settled design does nothing. */
  lemma {:induction false} SettledFixed(t: Tree, s: State)
    requires Fits(t, s) && Settled(t, s)
    ensures Pass(t, s) == Round(s, false) && Settle(t, s) == s
    decreases t
  {
    var v := s.Values();
    AssignFromFixed(t.m, s.store.mems, Progress(v, false), 0);
    assert AfterAssigns(t, s) == Progress(v, false);
    KidsFixed(t, s);
    assert AfterKids(t, s) == s.kids;
    CollectFixed(t, s.kids, Progress(v, false), |s.kids|);
    assert AfterOutputs(t, s) == Progress(v, false);
    PassSteps(t, s);
    LoopStep(t, s, Limit(t));
  }

  lemma {:induction false} KidsFixed(t: Tree, s: State)
    requires Fits(t, s) && Settled(t, s)
    ensures SettleKids(t, s.Values(), s.kids) == s.kids
    decreases t, 0
  {
    var kids := SettleKids(t, s.Values(), s.kids);
    forall i | 0 <= i < |t.instances|
      ensures kids[i] == s.kids[i]
    {
      DriveFixed(t.instances[i], s.Values(), s.kids[i], |t.instances[i].inputs|);
      SettledFixed(t.Child(i), s.kids[i]);
    }
  }

  /** No signal of the design, at any level, tells the two states apart. */
  ghost predicate Indistinguishable(t: Tree, a: State, b: State)
    requires Fits(t, a) && Fits(t, b)
    decreases t
  {
    && (forall x | t.m.Owns(x) :: Get(a.Values(), x) == Get(b.Values(), x))
    && a.store.mems == b.store.mems
    && (forall i | 0 <= i < |t.instances| :: Indistinguishable(t.Child(i), a.kids[i], b.kids[i]))
  }

  /** Settled states over the same stored values and inputs are the same. */
  lemma {:induction false} SettledUnique(t: Tree, a: State, b: State)
    requires Fits(t, a) && Fits(t, b) && Sane(t) && Unheld(t) && Levelled(t)
    requires Settled(t, a) && Settled(t, b) && SameStored(t, a, b) && SameInputs(t, a, b)
    ensures Indistinguishable(t, a, b)
    decreases t
  {
    var r :| RankOk(t, r);
    assert Comparable(t, r, a, b);
    forall x | t.m.Owns(x)
      ensures Get(a.Values(), x) == Get(b.Values(), x)
    {
      assert AgreeBelow(t, a, b, x);
      Determined(t, r, a, b, x);
    }
    forall i | 0 <= i < |t.instances|
      ensures Indistinguishable(t.Child(i), a.kids[i], b.kids[i])
    {
      var rc := ComparableKid(t, r, a, b, i);
      KidInputsSame(t, a, b, i);
      SettledUnique(t.Child(i), a.kids[i], b.kids[i]);
    }
  }

  lemma KidInputsSame(t: Tree, a: State, b: State, i: nat)
    requires Fits(t, a) && Fits(t, b) && Sane(t) && i < |t.instances|
    requires Settled(t, a) && Settled(t, b)
    requires forall x | t.m.Owns(x) :: Get(a.Values(), x) == Get(b.Values(), x)
    ensures SameInputs(t.Child(i), a.kids[i], b.kids[i])
  {
    var inst := t.instances[i];
    assert ConnectionsOk(t.m, inst);
    forall y | IsInput(t.Child(i).m, y)
      ensures Get(a.kids[i].Values(), y) == Get(b.kids[i].Values(), y)
    {
      var ic := EveryInputConnected(t.m, inst, y);
      assert InputOk(inst, a.Values(), a.kids[i], ic);
      assert InputOk(inst, b.Values(), b.kids[i], ic);
    }
  }

  // ----------------------------------------------- what settling stores

  /** One signal once the asserted asynchronous resets have taken effect. */
  function HeldAt(m: Module, values: Values, x: Signal): Word {
    if AsyncReg(m, x) && Asserted(values, m.signals[x.id].kind.reset.value)
    then Encode(m.signals[x.id].kind.reset.value.value, m.signals[x.id].ty.width)
    else Get(values, x)
  }

  /** What `apply_async_resets` leaves in one signal. */
  lemma ResetAt(m: Module, values: Values, x: Signal)
    ensures Get(ApplyResets(m, values), x) == HeldAt(m, values, x)
  {
    if AsyncReg(m, x) {
      assert m.Handle(x.id) == x;
    }
  }

  /** Inputs decide which asynchronous resets are asserted. */
  lemma HeldAlike(m: Module, v: Values, w: Values, x: Signal)
    requires AsyncFromInputs(m)
    requires forall y | IsInput(m, y) :: Get(v, y) == Get(w, y)
    requires Get(v, x) == Get(w, x)
    ensures HeldAt(m, v, x) == HeldAt(m, w, x)
  {
    if AsyncReg(m, x) {
      assert IsInput(m, m.signals[x.id].kind.reset.value.signal);
    }
  }

  lemma AssignsLeave(t: Tree, s: State, x: Signal)
    requires Fits(t, s) && !Driven(t, x)
    ensures Get(AfterAssigns(t, s).values, x) == Get(AfterResets(t, s), x)
  {
    forall j | 0 <= j < |t.m.assignments|
      ensures t.m.assignments[j].dst != x
    {
      assert t.m.assignments[j] in t.m.assignments;
    }
    AssignFromFrame(t.m, s.store.mems, Progress(AfterResets(t, s), AfterResets(t, s) != s.Values()), 0, x);
  }

  /** One round leaves an undriven signal as the asynchronous resets make it, and
      applying them again changes nothing. */
  lemma RoundKeeps(t: Tree, s: State, x: Signal)
    requires Fits(t, s) && Settleable(t) && !Driven(t, x)
    ensures Get(Pass(t, s).state.Values(), x) == HeldAt(t.m, s.Values(), x)
    ensures ResetsOk(t.m, Pass(t, s).state.Values())
  {
    PassSteps(t, s);
    RoundResets(t, s);
    OutputsLeave(t, s, x);
    AssignsLeave(t, s, x);
    ResetAt(t.m, s.Values(), x);
  }

  /** Undriven signals and the children's stored values after the resets of the
      top level have been applied. */
  ghost predicate StoredAfter(t: Tree, s: State, s': State)
    requires Fits(t, s) && Fits(t, s')
  {
    && s'.store.mems == s.store.mems
    && (forall x | !Driven(t, x) :: Get(s'.Values(), x) == HeldAt(t.m, s.Values(), x))
    && (forall i | 0 <= i < |t.instances| :: SameStored(t.Child(i), s.kids[i], s'.kids[i]))
  }

  lemma RoundStores(t: Tree, s: State)
    requires Fits(t, s) && Settleable(t)
    ensures StoredAfter(t, s, Pass(t, s).state) && ResetsOk(t.m, Pass(t, s).state.Values())
  {
    PassSteps(t, s);
    RoundResets(t, s);
    forall x | !Driven(t, x)
      ensures Get(Pass(t, s).state.Values(), x) == HeldAt(t.m, s.Values(), x)
    {
      RoundKeeps(t, s, x);
    }
    forall i | 0 <= i < |t.instances|
      ensures SameStored(t.Child(i), s.kids[i], Pass(t, s).state.kids[i])
    {
      KidsAfter(t, s, i);
    }
  }

  lemma StoredAfterTrans(t: Tree, a: State, b: State, c: State)
    requires Fits(t, a) && Fits(t, b) && Fits(t, c) && ResetsOk(t.m, b.Values())
    requires StoredAfter(t, a, b) && StoredAfter(t, b, c)
    ensures StoredAfter(t, a, c)
  {
    forall x | !Driven(t, x)
      ensures Get(c.Values(), x) == Get(b.Values(), x)
    {
      ResetAt(t.m, b.Values(), x);
    }
    forall i | 0 <= i < |t.instances|
      ensures SameStored(t.Child(i), a.kids[i], c.kids[i])
    {
      SameStoredTrans(t.Child(i), a.kids[i], b.kids[i], c.kids[i]);
    }
  }

  lemma {:induction false} LoopStores(t: Tree, s: State, n: nat)
    requires Fits(t, s) && Settleable(t) && n > 0
    ensures StoredAfter(t, s, Loop(t, s, n))
    decreases n
  {
    RoundStores(t, s);
    LoopStep(t, s, n);
    if Pass(t, s).changed && n > 1 {
      LoopStores(t, Pass(t, s).state, n - 1);
      StoredAfterTrans(t, s, Pass(t, s).state, Loop(t, Pass(t, s).state, n - 1));
    }
  }

  /** `eval_combinational` stores nothing but asserted asynchronous resets: such a
      register holds its reset value afterwards, everything else undriven what it
      held before. */
  lemma SettleStoresResets(t: Tree, s: State)
    requires Fits(t, s) && Settleable(t)
    ensures StoredAfter(t, s, Settle(t, s))
  {
    LoopStores(t, s, Limit(t));
  }

  lemma {:induction false} SameStoredSym(t: Tree, a: State, b: State)
    requires Fits(t, a) && Fits(t, b) && SameStored(t, a, b)
    ensures SameStored(t, b, a)
    decreases t
  {
    forall i | 0 <= i < |t.instances|
      ensures SameStored(t.Child(i), b.kids[i], a.kids[i])
    {
      SameStoredSym(t.Child(i), a.kids[i], b.kids[i]);
    }
    forall x | !Driven(t, x) && !IsInput(t.m, x)
      ensures Get(b.Values(), x) == Get(a.Values(), x)
    {
      assert Get(a.Values(), x) == Get(b.Values(), x);
    }
  }

  /** Equal undriven signals and equal children before, equal ones after. */
  lemma StoredAlike(t: Tree, a: State, b: State, a': State, b': State)
    requires Fits(t, a) && Fits(t, b) && Fits(t, a') && Fits(t, b')
    requires Sane(t) && AsyncFromInputs(t.m)
    requires StoredAfter(t, a, a') && StoredAfter(t, b, b')
    requires SameStored(t, a, b) && SameInputs(t, a, b)
    ensures SameStored(t, a', b') && SameInputs(t, a', b')
  {
    forall x | !Driven(t, x)
      ensures Get(a'.Values(), x) == Get(b'.Values(), x)
    {
      HeldAlike(t.m, a.Values(), b.Values(), x);
    }
    forall x | IsInput(t.m, x)
      ensures !Driven(t, x)
    {
      if Driven(t, x) {
        DrivenIsDrivable(t, x);
      }
    }
    forall i | 0 <= i < |t.instances|
      ensures SameStored(t.Child(i), a'.kids[i], b'.kids[i])
    {
      var u := t.Child(i);
      SameStoredSym(u, a.kids[i], a'.kids[i]);
      SameStoredTrans(u, a'.kids[i], a.kids[i], b.kids[i]);
      SameStoredTrans(u, a'.kids[i], b.kids[i], b'.kids[i]);
    }
  }

  /** What `eval_combinational` leaves is a function of inputs and stored values
      alone, whatever the wires held before; asynchronous resets from input ports
      are allowed. */
  lemma SettleForgetsWires(t: Tree, a: State, b: State)
    requires Fits(t, a) && Fits(t, b) && Settleable(t) && Unheld(t)
    requires SameStored(t, a, b) && SameInputs(t, a, b)
    ensures Indistinguishable(t, Settle(t, a), Settle(t, b))
  {
    SettleSettles(t, a);
    SettleSettles(t, b);
    SettleStoresResets(t, a);
    SettleStoresResets(t, b);
    StoredAlike(t, a, b, Settle(t, a), Settle(t, b));
    SettledUnique(t, Settle(t, a), Settle(t, b));
  }

  // ------------------------------------------------------------ order of sets

  /** The values with an input port written. */
  function Written(t: Tree, s: State, x: Signal, value: Word): State {
    var width := if t.m.Owns(x) then t.m.WidthOf(x) else BITS;
    s.WithValues(s.Values()[x := Masked(value, width)])
  }

  /** Two writes, each followed by the resets, leave what both writes followed by
      the resets leave, if the resets had taken effect before. */
  lemma ResetsTwice(m: Module, v: Values, x: Signal, p: Word, y: Signal, q: Word, u: Values, z: Signal)
    requires AsyncFromInputs(m) && HeldAt(m, v, z) == Get(v, z)
    requires IsInput(m, x) && IsInput(m, y) && x != y
    requires forall k | IsInput(m, k) || k == z :: Get(u, k) == HeldAt(m, v[x := p], k)
    ensures HeldAt(m, u[y := q], z) == HeldAt(m, v[x := p][y := q], z)
  {
    if AsyncReg(m, z) {
      var r := m.signals[z.id].kind.reset.value;
      var k, w := r.signal, v[x := p];
      assert IsInput(m, k) && !AsyncReg(m, k) && !AsyncReg(m, x) && !AsyncReg(m, y);
      assert z != x && z != y;
      assert Get(u, k) == Get(w, k);
      assert Get(u[y := q], k) == Get(w[y := q], k);
      assert Asserted(u[y := q], r) <==> Asserted(w[y := q], r);
      assert Get(u[y := q], z) == Get(u, z) == HeldAt(m, w, z);
      assert Get(w[y := q], z) == Get(v, z);
      if k == y {
        assert Asserted(w, r) <==> Asserted(v, r);
      } else {
        assert Asserted(w, r) <==> Asserted(w[y := q], r);
      }
    } else {
      assert Get(u, z) == Get(v[x := p], z);
    }
  }

  /** After two `set` calls every undriven signal is what the resets make of both
      written values. */
  lemma TwoSets(t: Tree, s: State, x: Signal, p: Word, y: Signal, q: Word)
    requires Fits(t, s) && Settleable(t) && ResetsOk(t.m, s.Values())
    requires IsInput(t.m, x) && IsInput(t.m, y) && x != y
    ensures StoredAfter(t, Written(t, Written(t, s, x, p), y, q),
                        SetSignal(t, SetSignal(t, s, x, p), y, q))
  {
    var w := Written(t, s, x, p);
    var u := SetSignal(t, s, x, p);
    SettleStoresResets(t, w);
    SettleStoresResets(t, Written(t, u, y, q));
    forall z | !Driven(t, z)
      ensures HeldAt(t.m, Written(t, u, y, q).Values(), z) == HeldAt(t.m, Written(t, w, y, q).Values(), z)
    {
      InputsUndriven(t);
      ResetAt(t.m, s.Values(), z);
      ResetsTwice(t.m, s.Values(), x, Masked(p, t.m.WidthOf(x)), y, Masked(q, t.m.WidthOf(y)),
                  u.Values(), z);
    }
    TwoSetsKids(t, w, u, SetSignal(t, u, y, q));
  }

  lemma InputsUndriven(t: Tree)
    requires Sane(t)
    ensures forall x | IsInput(t.m, x) :: !Driven(t, x)
  {
    forall x | IsInput(t.m, x)
      ensures !Driven(t, x)
    {
      if Driven(t, x) {
        DrivenIsDrivable(t, x);
      }
    }
  }

  lemma TwoSetsKids(t: Tree, a: State, b: State, c: State)
    requires Fits(t, a) && Fits(t, b) && Fits(t, c)
    requires forall i | 0 <= i < |t.instances| :: SameStored(t.Child(i), a.kids[i], b.kids[i])
    requires forall i | 0 <= i < |t.instances| :: SameStored(t.Child(i), b.kids[i], c.kids[i])
    ensures forall i | 0 <= i < |t.instances| :: SameStored(t.Child(i), a.kids[i], c.kids[i])
  {
    forall i | 0 <= i < |t.instances|
      ensures SameStored(t.Child(i), a.kids[i], c.kids[i])
    {
      SameStoredTrans(t.Child(i), a.kids[i], b.kids[i], c.kids[i]);
    }
  }

  /** Two `set` calls on different input ports commute, on any state in which the
      asserted asynchronous resets have taken effect, as they have in every
      settled state. */
  lemma SetsCommute(t: Tree, s: State, x: Signal, v: Word, y: Signal, w: Word)
    requires Fits(t, s) && Settleable(t) && Unheld(t) && ResetsOk(t.m, s.Values())
    requires IsInput(t.m, x) && IsInput(t.m, y) && x != y
    ensures Indistinguishable(t, SetSignal(t, SetSignal(t, s, x, v), y, w),
                                 SetSignal(t, SetSignal(t, s, y, w), x, v))
  {
    var both := Written(t, Written(t, s, x, v), y, w);
    TwoSets(t, s, x, v, y, w);
    TwoSets(t, s, y, w, x, v);
    assert both == Written(t, Written(t, s, y, w), x, v);
    SetSettles(t, SetSignal(t, s, x, v), y, w);
    SetSettles(t, SetSignal(t, s, y, w), x, v);
    SettledFrom(t, both, SetSignal(t, SetSignal(t, s, x, v), y, w), SetSignal(t, SetSignal(t, s, y, w), x, v));
  }

  lemma SetSettles(t: Tree, s: State, x: Signal, v: Word)
    requires Fits(t, s) && Settleable(t)
    ensures Settled(t, SetSignal(t, s, x, v))
  {
    SettleSettles(t, Written(t, s, x, v));
  }

  /** Two settled states with the stored values left by one state are alike. */
  lemma SettledFrom(t: Tree, s: State, a: State, b: State)
    requires Fits(t, s) && Fits(t, a) && Fits(t, b) && Settleable(t) && Unheld(t)
    requires StoredAfter(t, s, a) && StoredAfter(t, s, b) && Settled(t, a) && Settled(t, b)
    ensures Indistinguishable(t, a, b)
  {
    SameStoredRefl(t, s, s);
    StoredAlike(t, s, s, a, b);
    SettledUnique(t, a, b);
  }

  // ---------------------------------------------------- assignment order

  /** The same design with the top module's assignments in another order. */
  ghost predicate Reordered(t: Tree, u: Tree) {
    && u == Tree(t.m.(assignments := u.m.assignments), t.instances)
    && multiset(t.m.assignments) == multiset(u.m.assignments)
  }

  lemma {:induction false} TypeOfSignals(m: Module, n: Module, e: Expr)
    requires m.id == n.id && m.signals == n.signals
    ensures TypeOf(m, e) == TypeOf(n, e)
    decreases e
  {
    if e.Bits? || e.Arith? {
      TypeOfSignals(m, n, e.lhs);
      TypeOfSignals(m, n, e.rhs);
    } else if e.Mux? {
      TypeOfSignals(m, n, e.thenExpr);
      TypeOfSignals(m, n, e.elseExpr);
    } else if e.Not? || e.Trunc? || e.Cast? {
      TypeOfSignals(m, n, e.inner);
    } else if e.Concat? {
      PartsWidthSignals(m, n, e.parts);
    }
  }

  lemma {:induction false} PartsWidthSignals(m: Module, n: Module, parts: seq<Expr>)
    requires m.id == n.id && m.signals == n.signals
    ensures PartsWidth(m, parts) == PartsWidth(n, parts)
    decreases parts
  {
    if parts != [] {
      TypeOfSignals(m, n, parts[0]);
      PartsWidthSignals(m, n, parts[1..]);
    }
  }

  lemma {:induction false} EvalSignals(m: Module, n: Module, st: Store, e: Expr)
    requires m.id == n.id && m.signals == n.signals
    ensures Eval(m, st, e) == Eval(n, st, e)
    decreases e
  {
    if e.Bits? || e.Arith? || e.Compare? {
      EvalSignals(m, n, st, e.lhs);
      EvalSignals(m, n, st, e.rhs);
      TypeOfSignals(m, n, e.lhs);
    } else if e.Mux? {
      EvalSignals(m, n, st, e.cond);
      EvalSignals(m, n, st, e.thenExpr);
      EvalSignals(m, n, st, e.elseExpr);
    } else if e.Concat? {
      PartsEvalSignals(m, n, st, e.parts);
    } else if e.MemRead? {
      EvalSignals(m, n, st, e.addr);
    } else if !e.Lit? && !e.Ref? {
      EvalSignals(m, n, st, e.inner);
      TypeOfSignals(m, n, e.inner);
    }
  }

  lemma {:induction false} PartsEvalSignals(m: Module, n: Module, st: Store, parts: seq<Expr>)
    requires m.id == n.id && m.signals == n.signals
    ensures EvalParts(m, st, parts) == EvalParts(n, st, parts)
    decreases parts
  {
    if parts != [] {
      EvalSignals(m, n, st, parts[0]);
      TypeOfSignals(m, n, parts[0]);
      PartsEvalSignals(m, n, st, parts[1..]);
    }
  }

  lemma ReorderedMember(t: Tree, u: Tree, a: Assignment)
    requires Reordered(t, u)
    ensures a in t.m.assignments <==> a in u.m.assignments
  {
    assert a in multiset(t.m.assignments) <==> a in multiset(u.m.assignments);
  }

  /** Reordering the assignments does not change which states are settled. */
  lemma ReorderedSettled(t: Tree, u: Tree, s: State)
    requires Reordered(t, u) && Fits(t, s) && Fits(u, s) && Settled(u, s)
    ensures Settled(t, s)
  {
    assert AsyncWrites(t.m, s.Values()) == AsyncWrites(u.m, s.Values());
    forall j | 0 <= j < |t.m.assignments|
      ensures AssignOk(t.m, s.store, t.m.assignments[j])
    {
      var a := t.m.assignments[j];
      ReorderedMember(t, u, a);
      var k :| 0 <= k < |u.m.assignments| && u.m.assignments[k] == a;
      assert AssignOk(u.m, s.store, u.m.assignments[k]);
      EvalSignals(t.m, u.m, s.store, a.expr);
    }
    forall i | 0 <= i < |t.instances|
      ensures Settled(t.Child(i), s.kids[i])
    {
      assert t.Child(i) == u.Child(i);
    }
  }

  /** One driver per signal does not depend on the order either. */
  lemma ReorderedDrivers(t: Tree, u: Tree, j: nat, k: nat)
    requires Reordered(t, u) && j < k < |u.m.assignments|
    requires forall i, n | 0 <= i < n < |t.m.assignments| ::
               t.m.assignments[i].dst != t.m.assignments[n].dst
    ensures u.m.assignments[j].dst != u.m.assignments[k].dst
  {
    var a, b, s := u.m.assignments[j], u.m.assignments[k], t.m.assignments;
    assert s[..|s|] == s;
    if a.dst == b.dst {
      ReorderedMember(t, u, a);
      ReorderedMember(t, u, b);
      var i :| 0 <= i < |s| && s[i] == a;
      assert a == b;
      Distinct.TwicePresent(u.m.assignments, j, k);
      assert Distinct.Distinct(s);
      Distinct.OncePresent(s, |s|, i);
    }
  }

  lemma ReorderedSane(t: Tree, u: Tree)
    requires Reordered(t, u) && Sane(t)
    ensures Sane(u)
  {
    forall j | 0 <= j < |u.m.assignments|
      ensures u.m.assignments[j] in t.m.assignments
    {
      ReorderedMember(t, u, u.m.assignments[j]);
    }
    forall j, k | 0 <= j < k < |u.m.assignments|
      ensures u.m.assignments[j].dst != u.m.assignments[k].dst
    {
      ReorderedDrivers(t, u, j, k);
    }
    SaneTop(t, u);
  }

  lemma SaneTop(t: Tree, u: Tree)
    requires Reordered(t, u) && Sane(t)
    requires forall j | 0 <= j < |u.m.assignments| :: u.m.assignments[j] in t.m.assignments
    requires forall j, k | 0 <= j < k < |u.m.assignments| ::
               u.m.assignments[j].dst != u.m.assignments[k].dst
    ensures Sane(u)
  {
    forall i | 0 <= i < |u.instances|
      ensures ConnectionsOk(u.m, u.instances[i]) && Sane(u.Child(i))
    {
      assert u.Child(i) == t.Child(i);
      assert ConnectionsOk(t.m, t.instances[i]);
    }
  }

  lemma ReorderedEdge(t: Tree, u: Tree, a: Signal, b: Signal)
    requires Reordered(t, u) && Edge(u, a, b)
    ensures Edge(t, a, b)
  {
    if j :| 0 <= j < |u.m.assignments| && u.m.assignments[j].dst == a
            && b in AssignDeps(u.m.assignments[j]) {
      ReorderedMember(t, u, u.m.assignments[j]);
      var k :| 0 <= k < |t.m.assignments| && t.m.assignments[k] == u.m.assignments[j];
    } else {
      var i, oc, ic :| 0 <= i < |u.instances|
                       && oc in u.instances[i].outputs && ic in u.instances[i].inputs
                       && oc.parent == a && ic.parent == b
                       && PortDep(u.Child(i), oc.port, ic.port);
      assert t.Child(i) == u.Child(i);
      InstanceEdge(t, i, oc, ic);
    }
  }

  lemma ReorderedLevelled(t: Tree, u: Tree)
    requires Reordered(t, u) && Levelled(t)
    ensures Levelled(u)
  {
    var r :| RankOk(t, r);
    assert |t.m.assignments| == |multiset(t.m.assignments)| == |u.m.assignments|;
    forall a, b | Edge(u, a, b)
      ensures Rk(r, a) > Rk(r, b)
    {
      ReorderedEdge(t, u, a, b);
    }
    forall j | 0 <= j < |u.m.assignments|
      ensures 1 <= Rk(r, u.m.assignments[j].dst) <= Limit(u)
    {
      ReorderedMember(t, u, u.m.assignments[j]);
    }
    assert RankOk(u, r);
    forall i | 0 <= i < |u.instances|
      ensures Levelled(u.Child(i))
    {
      assert u.Child(i) == t.Child(i);
    }
  }

  lemma ReorderedSettleable(t: Tree, u: Tree)
    requires Reordered(t, u) && Settleable(t)
    ensures Settleable(u)
  {
    ReorderedSane(t, u);
    ReorderedLevelled(t, u);
    forall i | 0 <= i < |u.instances|
      ensures Pure(u.Child(i))
    {
      assert u.Child(i) == t.Child(i) && Pure(t.Child(i));
    }
  }

  /** Undriven signals and stored values do not depend on the order. */
  lemma ReorderedStored(t: Tree, u: Tree, s: State, s': State)
    requires Reordered(t, u) && Fits(t, s) && Fits(u, s) && Fits(t, s') && Fits(u, s')
    requires StoredAfter(u, s, s')
    ensures StoredAfter(t, s, s')
  {
    assert AsyncWrites(t.m, s.Values()) == AsyncWrites(u.m, s.Values());
    forall x | !Driven(t, x)
      ensures !Driven(u, x)
    {
      if Assigned(u.m, x) {
        var d :| d in u.m.assignments && d.dst == x;
        ReorderedMember(t, u, d);
      }
      assert OutputDriven(u, x) == OutputDriven(t, x);
    }
    forall i | 0 <= i < |t.instances|
      ensures SameStored(t.Child(i), s.kids[i], s'.kids[i])
    {
      assert t.Child(i) == u.Child(i);
    }
  }

  /** The order of the assignments cannot be observed. */
  lemma OrderIrrelevant(t: Tree, u: Tree, s: State)
    requires Reordered(t, u) && Fits(t, s) && Fits(u, s) && Settleable(t) && Unheld(t)
    ensures Indistinguishable(t, Settle(t, s), Settle(u, s))
  {
    var a, b := Settle(t, s), Settle(u, s);
    ReorderedSettleable(t, u);
    SettleSettles(t, s);
    SettleSettles(u, s);
    ReorderedSettled(t, u, b);
    SettleStoresResets(t, s);
    SettleStoresResets(u, s);
    ReorderedStored(t, u, s, b);
    SameStoredRefl(t, s, s);
    StoredAlike(t, s, s, a, b);
    SettledUnique(t, a, b);
  }
}
