/** Resets by the level of their signal, and what a new simulator holds: from power
    up through every tick, whatever the kind and the polarity of the reset. */
module ResetLevels {
  import opened Words
  import opened Rtl
  import opened Semantics
  import opened Simulation
  import opened Depends
  import opened Settling
  import opened Convergence
  import opened Bound
  import opened Fixpoint
  import opened Stages
  import opened Runs

  /** The reset acts: its signal is low exactly when it is active low. */
  predicate Acts(values: Values, r: Reset) {
    Get(values, r.signal) == 0 <==> r.polarity == ActiveLow
  }

  lemma ActingIsAsserted(values: Values, r: Reset)
    ensures Acts(values, r) <==> Asserted(values, r)
  {
  }

  lemma EncodeIsLow(v: int, w: nat)
    requires w <= BITS
    ensures Encode(v, w) == Low(v, w) == Masked(Encode(v, w), w)
  {
    LowLow(v, w, BITS);
    LowLow(v, w, w);
  }

  /** The module has a register with this reset. */
  predicate ResetReg(m: Module, i: nat, r: Reset) {
    && i < |m.signals| && m.signals[i].kind.Reg? && m.signals[i].kind.reset == Some(r)
    && m.signals[i].ty.width <= BITS
  }

  // ------------------------------------------------------- asynchronous resets

  /** Settling loads an acting asynchronous reset and leaves the register alone
      otherwise. */
  lemma SettledByLevel(t: Tree, s: State, i: nat, r: Reset)
    requires Fits(t, s) && Settleable(t) && ResetReg(t.m, i, r) && r.kind == Async
    ensures
      var level, before := Get(s.Values(), r.signal), Get(s.Values(), t.m.Handle(i));
      var after := Get(Settle(t, s).Values(), t.m.Handle(i));
      && (r.polarity == ActiveLow && level == 0 ==> after == Low(r.value, t.m.signals[i].ty.width))
      && (r.polarity == ActiveLow && level != 0 ==> after == before)
      && (r.polarity == ActiveHigh && level != 0 ==> after == Low(r.value, t.m.signals[i].ty.width))
      && (r.polarity == ActiveHigh && level == 0 ==> after == before)
  {
    SettleStoresResets(t, s);
    RegUndriven(t, i);
    assert Get(Settle(t, s).Values(), t.m.Handle(i)) == HeldAt(t.m, s.Values(), t.m.Handle(i));
    EncodeIsLow(r.value, t.m.signals[i].ty.width);
  }

  /** No asynchronously reset register is itself the reset of one. */
  predicate Unchained(m: Module) {
    forall i | 0 <= i < |m.signals| && HasAsync(m.signals[i]) :: !AsyncReg(m, m.signals[i].kind.reset.value.signal)
  }

  lemma ResetsOnce(m: Module, values: Values)
    requires Unchained(m)
    ensures ResetsOk(m, ApplyResets(m, values))
  {
    var once := ApplyResets(m, values);
    forall i | 0 <= i < |m.signals| && HasAsync(m.signals[i])
      ensures Asserted(once, m.signals[i].kind.reset.value) <==> Asserted(values, m.signals[i].kind.reset.value)
    {
      ResetsFrame(m, values, m.signals[i].kind.reset.value.signal);
    }
    assert AsyncWrites(m, once) == AsyncWrites(m, values);
  }

  /** Whatever drives the resets, and whether or not the loop ends settled: after it
      every register whose asynchronous reset acts holds its reset value. */
  lemma {:induction false} LoopResets(t: Tree, s: State, n: nat)
    requires Fits(t, s) && Unchained(t.m) && n > 0
    ensures ResetsOk(t.m, Loop(t, s, n).Values())
    decreases n
  {
    LoopStep(t, s, n);
    PassSteps(t, s);
    ResetsOnce(t.m, AfterOutputs(t, s).values);
    if Pass(t, s).changed && n > 1 {
      LoopResets(t, Pass(t, s).state, n - 1);
    }
  }

  /** The same by level. */
  lemma AnyResetsByLevel(t: Tree, s: State, i: nat, r: Reset)
    requires Fits(t, s) && Unchained(t.m) && ResetReg(t.m, i, r) && r.kind == Async
    ensures
      var values := Settle(t, s).Values();
      (r.polarity == ActiveLow && Get(values, r.signal) == 0)
      || (r.polarity == ActiveHigh && Get(values, r.signal) != 0)
      ==> Get(values, t.m.Handle(i)) == Low(r.value, t.m.signals[i].ty.width)
  {
    LoopResets(t, s, Limit(t));
    ResetAt(t.m, Settle(t, s).Values(), t.m.Handle(i));
    EncodeIsLow(r.value, t.m.signals[i].ty.width);
    assert AsyncReg(t.m, t.m.Handle(i));
  }

  // ----------------------------------------------------------------------- set

  /** `set` stores the low bits of the value, or the whole word under a handle the
      module does not have, and touches nothing else that is not driven. */
  lemma SetReads(t: Tree, s: State, x: Signal, value: Word, y: Signal)
    requires Fits(t, s) && Settleable(t) && !Driven(t, y) && !AsyncReg(t.m, y)
    ensures Get(SetSignal(t, s, x, value).Values(), y)
         == if y != x then Get(s.Values(), y)
            else if t.m.Owns(x) then Low(value, t.m.WidthOf(x)) else value
  {
    var width := if t.m.Owns(x) then t.m.WidthOf(x) else BITS;
    SettleStoresResets(t, s.WithValues(s.Values()[x := Masked(value, width)]));
    LowSmall(value, BITS);
  }

  // --------------------------------------------------------------- clock edges

  /** An edge of the register's clock, or of any when it has none, loads an acting
      reset of either kind and takes the masked next value otherwise. */
  lemma EdgeByLevel(m: Module, st: Store, edges: ClockEdges, i: nat, r: Reset)
    requires ResetReg(m, i, r) && m.signals[i].kind.next.Some?
    ensures
      var kind, w, level := m.signals[i].kind, m.signals[i].ty.width, Get(st.values, r.signal);
      var before, after := Get(st.values, m.Handle(i)), Get(LatchStore(m, st, edges).values, m.Handle(i));
      var next := Low(Eval(m, st, kind.next.value), w);
      if kind.clock == None || edges == AllClocks || kind.clock.value in edges.active then
        && (r.polarity == ActiveLow && level == 0 ==> after == Low(r.value, w))
        && (r.polarity == ActiveLow && level != 0 ==> after == next)
        && (r.polarity == ActiveHigh && level != 0 ==> after == Low(r.value, w))
        && (r.polarity == ActiveHigh && level == 0 ==> after == next)
      else after == before
  {
    EncodeIsLow(r.value, m.signals[i].ty.width);
    if edges.Register(m.signals[i]) {
      assert Get(LatchStore(m, st, edges).values, m.Handle(i)) == NextValue(m, st, i);
    }
  }

  /** A whole tick of a settled design, for a synchronous reset at any level of the
      hierarchy. */
  lemma TickByLevel(t: Tree, s: State, edges: ClockEdges, p: Path, i: nat, r: Reset)
    requires ValidPath(t, p) && Fits(t, s) && Settleable(t) && Settled(t, s)
    requires ResetReg(At(t, p).m, i, r) && At(t, p).m.signals[i].kind.next.Some? && r.kind == Sync
    ensures
      var m, st := At(t, p).m, StateAt(t, s, p).store;
      var kind, w, level := m.signals[i].kind, m.signals[i].ty.width, Get(st.values, r.signal);
      var after := Get(StateAt(t, Tick(t, s, edges), p).store.values, m.Handle(i));
      if EdgesAt(p, edges).Register(m.signals[i]) then
        && (r.polarity == ActiveLow && level == 0 ==> after == Low(r.value, w))
        && (r.polarity == ActiveHigh && level != 0 ==> after == Low(r.value, w))
        && ((r.polarity == ActiveLow && level != 0) || (r.polarity == ActiveHigh && level == 0) ==>
              after == Low(Eval(m, st, kind.next.value), w))
      else after == Get(st.values, m.Handle(i))
  {
    TickAt(t, s, edges, p);
    EdgeByLevel(At(t, p).m, StateAt(t, s, p).store, EdgesAt(p, edges), i, r);
  }

  /** The same for an asynchronous reset at the top: while it acts the register
      holds its value whichever clocks rise. */
  lemma AsyncTickByLevel(t: Tree, s: State, edges: ClockEdges, i: nat, r: Reset)
    requires Fits(t, s) && Settleable(t) && Settled(t, s)
    requires ResetReg(t.m, i, r) && t.m.signals[i].kind.next.Some? && r.kind == Async
    ensures
      var kind, w, level := t.m.signals[i].kind, t.m.signals[i].ty.width, Get(s.Values(), r.signal);
      var after := Get(Tick(t, s, edges).Values(), t.m.Handle(i));
      && (r.polarity == ActiveLow && level == 0 ==> after == Low(r.value, w))
      && (r.polarity == ActiveHigh && level != 0 ==> after == Low(r.value, w))
      && ((r.polarity == ActiveLow && level != 0) || (r.polarity == ActiveHigh && level == 0) ==>
            after == if edges.Register(t.m.signals[i]) then Low(Eval(t.m, s.store, kind.next.value), w)
                     else Get(s.Values(), t.m.Handle(i)))
  {
    TickOfSettled(t, s, edges);
    EdgeByLevel(t.m, s.store, edges, i, r);
    SettledByLevel(t, Advance(t, s, edges), i, r);
    assert HasAsync(t.m.signals[i]);
    ResetInput(t.m, s.store, edges, r.signal);
  }

  lemma ResetInput(m: Module, st: Store, edges: ClockEdges, x: Signal)
    requires IsInput(m, x)
    ensures Get(LatchStore(m, st, edges).values, x) == Get(st.values, x)
  {
  }

  // ------------------------------------------------- what a tick works from

  /** Whatever state a tick finds, the edge works from the settled one. */
  lemma TickSettlesFirst(t: Tree, s: State, edges: ClockEdges)
    requires Fits(t, s) && Settleable(t)
    ensures Tick(t, s, edges) == Settle(t, Advance(t, Settle(t, s), edges))
    ensures Tick(t, s, edges) == Tick(t, Settle(t, s), edges)
  {
    SettleSettles(t, s);
    SettledFixed(t, Settle(t, s));
    PrepareFixed(t, Settle(t, s));
  }

  /** Before the edge is captured the children are brought up to date with their
      parent's values, settled or not. */
  lemma PrepareRefreshes(t: Tree, s: State, i: nat)
    requires Fits(t, s) && Sane(t) && i < |t.instances| && Settleable(t.Child(i)) && Pure(t.Child(i))
    ensures Settled(t.Child(i), Prepare(t, s).kids[i])
    ensures forall c | c in t.instances[i].inputs :: InputOk(t.instances[i], s.Values(), Prepare(t, s).kids[i], c)
  {
    var kid := DriveKid(t.instances[i], s.Values(), s.kids[i]);
    SettleSettles(t.Child(i), kid);
    PrepareFixed(t.Child(i), Settle(t.Child(i), kid));
    assert Prepare(t, s).kids[i] == Settle(t.Child(i), kid) == SettleKids(t, s.Values(), s.kids)[i];
    SettleKidStored(t, s.Values(), s.kids, i);
  }

  // ------------------------------------------------------------------ power up

  /** Entry k is the first for the signal. */
  predicate FirstFor(initials: seq<InitialRegister>, x: Signal, k: nat) {
    k < |initials| && initials[k].reg == x && forall j | 0 <= j < k :: initials[j].reg != x
  }

  predicate NoneFor(initials: seq<InitialRegister>, x: Signal) {
    forall j | 0 <= j < |initials| :: initials[j].reg != x
  }

  lemma {:induction false} FirstWins(initials: seq<InitialRegister>, x: Signal, width: nat, k: nat)
    requires width <= BITS && FirstFor(initials, x, k)
    ensures FirstInitial(initials, x, width) == Low(initials[k].value, width)
    decreases |initials|
  {
    if k == 0 {
      EncodeIsLow(initials[0].value, width);
    } else {
      assert FirstFor(initials[1..], x, k - 1);
      FirstWins(initials[1..], x, width, k - 1);
    }
  }

  lemma {:induction false} NoneReads(initials: seq<InitialRegister>, x: Signal, width: nat)
    requires width <= BITS && NoneFor(initials, x)
    ensures FirstInitial(initials, x, width) == 0
    decreases |initials|
  {
    if initials == [] {
      EncodeIsLow(0, width);
      LowSmall(0, width);
    } else {
      NoneReads(initials[1..], x, width);
    }
  }

  /** What the constructor puts into a signal. */
  lemma InitialIs(m: Module, i: nat)
    requires i < |m.signals| && m.signals[i].ty.width <= BITS
    ensures
      var x, w, value := m.Handle(i), m.signals[i].ty.width, Get(InitialStore(m).values, m.Handle(i));
      && (forall k: nat | FirstFor(m.initialRegisters, x, k) :: value == Low(m.initialRegisters[k].value, w))
      && (NoneFor(m.initialRegisters, x) ==> value == 0)
  {
    var x, w := m.Handle(i), m.signals[i].ty.width;
    forall k: nat | FirstFor(m.initialRegisters, x, k)
      ensures Get(InitialStore(m).values, x) == Low(m.initialRegisters[k].value, w)
    {
      FirstWins(m.initialRegisters, x, w, k);
    }
    if NoneFor(m.initialRegisters, x) {
      NoneReads(m.initialRegisters, x, w);
    }
  }

  /** A new simulator: a register of any instance without an asynchronous reset
      reads its first initial value, or 0 without one. */
  lemma StartReads(t: Tree, p: Path, i: nat)
    requires ValidPath(t, p) && Settleable(t) && i < |At(t, p).m.signals|
    requires At(t, p).m.signals[i].kind.Reg? && !HasAsync(At(t, p).m.signals[i])
    requires At(t, p).m.signals[i].ty.width <= BITS
    ensures
      var m := At(t, p).m;
      var value := Get(StateAt(t, Start(t), p).store.values, m.Handle(i));
      && (forall k: nat | FirstFor(m.initialRegisters, m.Handle(i), k) ::
            value == Low(m.initialRegisters[k].value, m.signals[i].ty.width))
      && (NoneFor(m.initialRegisters, m.Handle(i)) ==> value == 0)
  {
    StartKeeps(t, p);
    InitialIs(At(t, p).m, i);
  }

  lemma StartKeeps(t: Tree, p: Path)
    requires ValidPath(t, p) && Settleable(t)
    ensures SameRegs(At(t, p).m, InitialStore(At(t, p).m), StateAt(t, Start(t), p).store)
  {
    LoopKeeps(t, InitialState(t), Limit(t));
    KeepsAt(t, InitialState(t), Start(t), p);
    InitialAt(t, p);
  }

  /** With an asynchronous reset it reads that only while the level of the reset,
      itself an input with an initial value, leaves it alone. */
  lemma AsyncStartReads(t: Tree, i: nat, r: Reset)
    requires Settleable(t) && ResetReg(t.m, i, r) && r.kind == Async
    ensures
      var x, w := t.m.Handle(i), t.m.signals[i].ty.width;
      var level, value := Get(Start(t).Values(), r.signal), Get(Start(t).Values(), x);
      && (r.polarity == ActiveLow && level == 0 ==> value == Low(r.value, w))
      && (r.polarity == ActiveHigh && level != 0 ==> value == Low(r.value, w))
      && ((r.polarity == ActiveLow && level != 0) || (r.polarity == ActiveHigh && level == 0) ==>
            && (forall k: nat | FirstFor(t.m.initialRegisters, x, k) :: value == Low(t.m.initialRegisters[k].value, w))
            && (NoneFor(t.m.initialRegisters, x) ==> value == 0))
  {
    InputsUndriven(t);
    assert HasAsync(t.m.signals[i]) && IsInput(t.m, r.signal);
    SettleStoresResets(t, InitialState(t));
    SettledByLevel(t, InitialState(t), i, r);
    InitialIs(t.m, i);
  }

  /** Entry k is the last for the address. */
  predicate LastFor(m: Module, mem: Signal, a: nat, n: nat, k: nat)
    requires n <= |m.initialWords|
  {
    && k < n && m.initialWords[k].mem == mem && m.initialWords[k].addr == a
    && forall j | k < j < n :: m.initialWords[j].mem != mem || m.initialWords[j].addr != a
  }

  predicate NoWordFor(m: Module, mem: Signal, a: nat, n: nat)
    requires n <= |m.initialWords|
  {
    forall j | 0 <= j < n :: m.initialWords[j].mem != mem || m.initialWords[j].addr != a
  }

  lemma {:induction false} LastWins(m: Module, mem: Signal, width: nat, depth: nat, a: nat, n: nat, k: nat)
    requires n <= |m.initialWords| && a < depth && width <= BITS && LastFor(m, mem, a, n, k)
    ensures InitialWords(m, mem, width, depth, n)[a] == Low(m.initialWords[k].value, width)
    decreases n
  {
    if k == n - 1 {
      EncodeIsLow(m.initialWords[k].value, width);
    } else {
      LastWins(m, mem, width, depth, a, n - 1, k);
    }
  }

  lemma {:induction false} NoWordReads(m: Module, mem: Signal, width: nat, depth: nat, a: nat, n: nat)
    requires n <= |m.initialWords| && a < depth && width <= BITS && NoWordFor(m, mem, a, n)
    ensures InitialWords(m, mem, width, depth, n)[a] == 0
    decreases n
  {
    if n == 0 {
      EncodeIsLow(0, width);
      LowSmall(0, width);
    } else {
      NoWordReads(m, mem, width, depth, a, n - 1);
    }
  }

  /** A new simulator: a memory of any instance holds at every address the last
      initial value given for it, or 0 without one. */
  lemma StartHoldsWords(t: Tree, p: Path, i: nat, a: nat)
    requires ValidPath(t, p) && Settleable(t) && i < |At(t, p).m.signals|
    requires At(t, p).m.signals[i].kind.Mem? && At(t, p).m.signals[i].ty.width <= BITS
    requires a < At(t, p).m.signals[i].kind.depth
    ensures
      var m, mems := At(t, p).m, StateAt(t, Start(t), p).store.mems;
      var mem, n := m.Handle(i), |m.initialWords|;
      && mem in mems && |mems[mem]| == m.signals[i].kind.depth
      && (forall k: nat | LastFor(m, mem, a, n, k) ::
            mems[mem][a] == Low(m.initialWords[k].value, m.signals[i].ty.width))
      && (NoWordFor(m, mem, a, n) ==> mems[mem][a] == 0)
  {
    StartKeeps(t, p);
    WordsAre(At(t, p).m, i, a);
  }

  lemma WordsAre(m: Module, i: nat, a: nat)
    requires i < |m.signals| && m.signals[i].kind.Mem? && m.signals[i].ty.width <= BITS
    requires a < m.signals[i].kind.depth
    ensures
      var mems, mem, n := InitialStore(m).mems, m.Handle(i), |m.initialWords|;
      && mem in mems && |mems[mem]| == m.signals[i].kind.depth
      && (forall k: nat | LastFor(m, mem, a, n, k) ::
            mems[mem][a] == Low(m.initialWords[k].value, m.signals[i].ty.width))
      && (NoWordFor(m, mem, a, n) ==> mems[mem][a] == 0)
  {
    var mem, w, depth, n := m.Handle(i), m.signals[i].ty.width, m.signals[i].kind.depth, |m.initialWords|;
    forall k: nat | LastFor(m, mem, a, n, k)
      ensures InitialStore(m).mems[mem][a] == Low(m.initialWords[k].value, w)
    {
      LastWins(m, mem, w, depth, a, n, k);
    }
    if NoWordFor(m, mem, a, n) {
      NoWordReads(m, mem, w, depth, a, n);
    }
  }
}
