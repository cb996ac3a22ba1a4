/** State registers: the next-state mux chains pick the first transition whose
    condition is true, and after a reset the register always holds a declared
    variant. */
module StateMachines {
  import opened Words
  import opened Rtl
  import opened Semantics
  import opened Simulation
  import opened Depends
  import opened Settling
  import opened Bound
  import opened Range
  import opened Stages
  import opened Runs
  import opened Builder
  import opened ResetLevels
  import Fixpoint

  datatype Variant = Variant(name: string, value: int)

  datatype StateType = StateType(ty: BitType, variants: seq<Variant>)
  {
    /** `StateType::value_of`: the first variant of that name. */
    function ValueOf(name: string): Option<int> {
      FirstValue(variants, name)
    }
  }

  function FirstValue(variants: seq<Variant>, name: string): (v: Option<int>)
    ensures v.Some? <==> exists i | 0 <= i < |variants| :: variants[i].name == name
    ensures v.Some? ==>
              exists i | 0 <= i < |variants| ::
                && variants[i].name == name && variants[i].value == v.value
                && forall j | 0 <= j < i :: variants[j].name != name
  {
    if variants == [] then None
    else if variants[0].name == name then Some(variants[0].value)
    else
      var v := FirstValue(variants[1..], name);
      assert forall i | 0 <= i < |variants| - 1 :: variants[i + 1] == variants[1..][i];
      v
  }

  datatype Transition = Transition(cond: Expr, variant: string)

  /** A state register of a module. */
  datatype StateReg = StateReg(signal: Signal, stateType: StateType)
  {
    predicate Known(name: string) {
      stateType.ValueOf(name).Some?
    }

    predicate AllKnown(ts: seq<Transition>) {
      forall i | 0 <= i < |ts| :: Known(ts[i].variant)
    }

    function Literal(name: string): Expr
      requires Known(name)
    {
      Lit(stateType.ValueOf(name).value, stateType.ty)
    }

    /** The word that stands for a variant. */
    function Code(name: string): Word
      requires Known(name)
    {
      Encode(stateType.ValueOf(name).value, stateType.ty.width)
    }

    /** Transitions in order of priority, over a default. */
    function Chain(ts: seq<Transition>, default: Expr): Expr
      requires AllKnown(ts)
    {
      if ts == [] then default
      else Mux(ts[0].cond, Literal(ts[0].variant), Chain(ts[1..], default))
    }
  }

  // -------------------------------------------------------------- generators

  predicate RegisterStated(m: Module, s: StateReg, clock: Signal, r: Reset) {
    m.Owns(s.signal)
    && m.signals[s.signal.id] == SignalInfo(s.stateType.ty, Reg(Some(clock), Some(r), None))
  }

  /** `state_reg` and its three relatives, by the style of the reset.  An unknown
      reset variant leaves the register without a reset. */
  method MakeStateReg(b: ModuleBuilder, ty: StateType, clock: Signal, reset: Signal,
                      variant: string, kind: ResetKind, polarity: Polarity) returns (s: StateReg)
    modifies b
    ensures s == StateReg(Signal(b.id, |old(b.signals)|), ty)
    ensures |b.signals| == |old(b.signals)| + 1 && b.signals[..|old(b.signals)|] == old(b.signals)
    ensures b.assignments == old(b.assignments) && b.memoryWrites == old(b.memoryWrites)
    ensures s.Known(variant) ==>
              && b.diagnostics == old(b.diagnostics)
              && RegisterStated(b.Built(), s, clock, Reset(reset, ty.ValueOf(variant).value, kind, polarity))
    ensures !s.Known(variant) ==> b.diagnostics == old(b.diagnostics) + [E_STATE_RESET_VARIANT]
  {
    var x := b.AddSignal(ty.ty, Reg(None, None, None));
    b.Clock(x, clock);
    s := StateReg(x, ty);
    match ty.ValueOf(variant)
    case Some(value) =>
      b.SetReset(x, Reset(reset, value, kind, polarity));
    case None =>
      b.diagnostics := b.diagnostics + [E_STATE_RESET_VARIANT];
  }

  /** The loop shared by `state_next` and `state_next_hold`: from the last
      transition to the first, stopping at an unknown variant. */
  method BuildChain(b: ModuleBuilder, s: StateReg, ts: seq<Transition>, default: Expr)
    returns (chain: Option<Expr>)
    modifies b`diagnostics
    ensures chain.Some? <==> s.AllKnown(ts)
    ensures chain.Some? ==> chain == Some(s.Chain(ts, default)) && b.diagnostics == old(b.diagnostics)
    ensures chain.None? ==> b.diagnostics == old(b.diagnostics) + [E_STATE_NEXT_VARIANT]
  {
    var expr := default;
    var i := |ts|;
    while i > 0
      invariant 0 <= i <= |ts| && s.AllKnown(ts[i..]) && expr == s.Chain(ts[i..], default)
      invariant b.diagnostics == old(b.diagnostics)
    {
      i := i - 1;
      if !s.Known(ts[i].variant) {
        b.diagnostics := b.diagnostics + [E_STATE_NEXT_VARIANT];
        return None;
      }
      assert ts[i..] == [ts[i]] + ts[i + 1..];
      expr := Mux(ts[i].cond, s.Literal(ts[i].variant), expr);
    }
    assert ts[0..] == ts;
    return Some(expr);
  }

  /** The register's next state is the expression; nothing else changed. */
  twostate predicate NextSet(b: ModuleBuilder, x: Signal, e: Expr)
    reads b
  {
    && old(b.IsReg(x))
    && b.signals == old(b.signals)[x.id := SignalInfo(old(b.signals[x.id].ty),
                       old(b.signals[x.id].kind).(next := Some(e)))]
    && b.diagnostics == old(b.diagnostics)
  }

  /** `state_next` */
  method StateNext(b: ModuleBuilder, s: StateReg, default: string, ts: seq<Transition>)
    requires b.IsReg(s.signal)
    modifies b`signals, b`diagnostics
    ensures s.Known(default) && s.AllKnown(ts) ==>
              NextSet(b, s.signal, s.Chain(ts, s.Literal(default)))
    ensures !(s.Known(default) && s.AllKnown(ts)) ==>
              b.signals == old(b.signals)
              && b.diagnostics == old(b.diagnostics) + [E_STATE_NEXT_VARIANT]
  {
    if !s.Known(default) {
      b.diagnostics := b.diagnostics + [E_STATE_NEXT_VARIANT];
      return;
    }
    var chain := BuildChain(b, s, ts, s.Literal(default));
    if chain.Some? {
      b.Next(s.signal, chain.value);
    }
  }

  /** `state_next_hold` */
  method StateNextHold(b: ModuleBuilder, s: StateReg, ts: seq<Transition>)
    requires b.IsReg(s.signal)
    modifies b`signals, b`diagnostics
    ensures s.AllKnown(ts) ==> NextSet(b, s.signal, s.Chain(ts, Ref(s.signal)))
    ensures !s.AllKnown(ts) ==>
              b.signals == old(b.signals)
              && b.diagnostics == old(b.diagnostics) + [E_STATE_NEXT_VARIANT]
  {
    var chain := BuildChain(b, s, ts, Ref(s.signal));
    if chain.Some? {
      b.Next(s.signal, chain.value);
    }
  }

  // --------------------------------------------------------------- priority

  /** Transition i is the first one whose condition is true. */
  predicate FirstTrue(m: Module, st: Store, ts: seq<Transition>, i: nat) {
    && i < |ts| && Eval(m, st, ts[i].cond) != 0
    && forall j | 0 <= j < i :: Eval(m, st, ts[j].cond) == 0
  }

  predicate NoneTrue(m: Module, st: Store, ts: seq<Transition>) {
    forall i | 0 <= i < |ts| :: Eval(m, st, ts[i].cond) == 0
  }

  lemma ChainStep(m: Module, st: Store, s: StateReg, ts: seq<Transition>, default: Expr)
    requires s.AllKnown(ts) && ts != []
    ensures Eval(m, st, s.Chain(ts, default))
         == if Eval(m, st, ts[0].cond) != 0 then s.Code(ts[0].variant)
            else Eval(m, st, s.Chain(ts[1..], default))
  {
    var lit := s.Literal(ts[0].variant);
    assert Eval(m, st, lit) == s.Code(ts[0].variant);
  }

  /** The first true transition wins. */
  lemma {:induction false} ChainPicksFirst(m: Module, st: Store, s: StateReg, ts: seq<Transition>,
                                           default: Expr, i: nat)
    requires s.AllKnown(ts) && FirstTrue(m, st, ts, i)
    ensures Eval(m, st, s.Chain(ts, default)) == s.Code(ts[i].variant)
    decreases i
  {
    ChainStep(m, st, s, ts, default);
    if i > 0 {
      assert ts[1..][i - 1] == ts[i];
      ChainPicksFirst(m, st, s, ts[1..], default, i - 1);
    }
  }

  /** Without a true transition the default stands. */
  lemma {:induction false} ChainDefaults(m: Module, st: Store, s: StateReg, ts: seq<Transition>, default: Expr)
    requires s.AllKnown(ts) && NoneTrue(m, st, ts)
    ensures Eval(m, st, s.Chain(ts, default)) == Eval(m, st, default)
  {
    if ts != [] {
      ChainStep(m, st, s, ts, default);
      assert NoneTrue(m, st, ts[1..]);
      ChainDefaults(m, st, s, ts[1..], default);
    }
  }

  // ------------------------------------------------------ declared variants

  /** The word encodes a declared variant. */
  predicate Declared(ty: StateType, word: Word) {
    exists i | 0 <= i < |ty.variants| :: word == Encode(ty.variants[i].value, ty.ty.width)
  }

  lemma CodeDeclared(s: StateReg, name: string)
    requires s.Known(name)
    ensures Declared(s.stateType, s.Code(name))
  {
  }

  /** A default that is a variant, or the register itself. */
  predicate GoodDefault(s: StateReg, default: Expr) {
    default == Ref(s.signal) || exists i | 0 <= i < |s.stateType.variants| ::
      default == Lit(s.stateType.variants[i].value, s.stateType.ty)
  }

  lemma {:induction false} ChainDeclared(m: Module, st: Store, s: StateReg, ts: seq<Transition>, default: Expr)
    requires s.AllKnown(ts) && GoodDefault(s, default)
    requires default == Ref(s.signal) ==> Declared(s.stateType, Get(st.values, s.signal))
    ensures Declared(s.stateType, Eval(m, st, s.Chain(ts, default)))
  {
    if ts == [] {
      if default != Ref(s.signal) {
        var i :| 0 <= i < |s.stateType.variants|
                 && default == Lit(s.stateType.variants[i].value, s.stateType.ty);
        assert Eval(m, st, default) == Encode(s.stateType.variants[i].value, s.stateType.ty.width);
      }
    } else {
      ChainStep(m, st, s, ts, default);
      CodeDeclared(s, ts[0].variant);
      ChainDeclared(m, st, s, ts[1..], default);
    }
  }

  lemma DeclaredFits(ty: StateType, word: Word)
    requires Declared(ty, word)
    ensures Masked(word, ty.ty.width) == word
  {
    LowSmall(word, ty.ty.width);
  }

  /** A state register as the generators leave it, whatever the style of its
      reset. */
  datatype Machine = Machine(s: StateReg, clock: Signal, reset: Reset, ts: seq<Transition>, default: Expr)
  {
    predicate In(m: Module) {
      && m.Owns(s.signal) && s.AllKnown(ts) && GoodDefault(s, default)
      && m.signals[s.signal.id]
         == SignalInfo(s.stateType.ty, Reg(Some(clock), Some(reset), Some(s.Chain(ts, default))))
      && exists i | 0 <= i < |s.stateType.variants| :: reset.value == s.stateType.variants[i].value
    }

    function Value(st: Store): Word {
      Get(st.values, s.signal)
    }
  }

  lemma LatchValue(m: Module, st: Store, edges: ClockEdges, x: Machine)
    requires x.In(m)
    ensures x.Value(LatchStore(m, st, edges))
         == if edges.Rises(x.clock) then NextValue(m, st, x.s.signal.id) else x.Value(st)
  {
    assert m.Handle(x.s.signal.id) == x.s.signal;
  }

  /** One edge: a reset loads its variant, and a declared variant is followed by a
      declared variant. */
  lemma LatchDeclared(m: Module, st: Store, edges: ClockEdges, x: Machine)
    requires x.In(m)
    requires (edges.Rises(x.clock) && Asserted(st.values, x.reset))
             || Declared(x.s.stateType, x.Value(st))
    ensures Declared(x.s.stateType, x.Value(LatchStore(m, st, edges)))
  {
    var ty, w := x.s.stateType, x.s.stateType.ty.width;
    LatchValue(m, st, edges, x);
    if edges.Rises(x.clock) {
      if Asserted(st.values, x.reset) {
        assert Declared(ty, Encode(x.reset.value, w));
        DeclaredFits(ty, Encode(x.reset.value, w));
      } else {
        ChainDeclared(m, st, x.s, x.ts, x.default);
        DeclaredFits(ty, Eval(m, st, x.s.Chain(x.ts, x.default)));
      }
    }
  }

  // -------------------------------------------------------------------- runs

  function StoreAt(t: Tree, events: seq<Event>, p: Path): Store
    requires ValidPath(t, p)
  {
    StateAt(t, Run(t, Start(t), events), p).store
  }

  /** Call k applied the register's reset. */
  predicate ResetAt(t: Tree, events: seq<Event>, p: Path, x: Machine, k: nat)
    requires ValidPath(t, p) && k < |events|
  {
    ResetsNow(t, Run(t, Start(t), events[..k]), events[k], p, x)
  }

  predicate HoldsDeclared(t: Tree, events: seq<Event>, p: Path, x: Machine)
    requires ValidPath(t, p)
  {
    Declared(x.s.stateType, x.Value(StoreAt(t, events, p)))
  }

  lemma MachineFrame(m: Module, a: Store, b: Store, x: Machine)
    requires x.In(m) && x.reset.kind.Sync? && SameRegs(m, a, b)
    ensures x.Value(a) == x.Value(b)
  {
    assert m.Handle(x.s.signal.id) == x.s.signal;
  }

  /** Below the top of a settleable design every reset is synchronous. */
  lemma {:induction false} SyncBelow(t: Tree, p: Path, x: Machine)
    requires ValidPath(t, p) && Pure(t) && x.In(At(t, p).m)
    ensures x.reset.kind.Sync?
    decreases |p|
  {
    if p != [] {
      SyncBelow(t.Child(p[0]), p[1..], x);
    } else {
      assert !HasAsync(t.m.signals[x.s.signal.id]);
    }
  }

  /** Settling leaves a register its value or its reset variant. */
  lemma SettleDeclares(t: Tree, s: State, x: Machine)
    requires Fits(t, s) && Settleable(t) && x.In(t.m) && Declared(x.s.stateType, x.Value(s.store))
    ensures Declared(x.s.stateType, x.Value(Settle(t, s).store))
  {
    Fixpoint.SettleStoresResets(t, s);
    RegUndriven(t, x.s.signal.id);
    assert t.m.Handle(x.s.signal.id) == x.s.signal;
    assert x.Value(Settle(t, s).store) == Fixpoint.HeldAt(t.m, s.Values(), x.s.signal);
  }

  /** In a settled state an asserted asynchronous reset has loaded its variant. */
  lemma AssertedDeclares(t: Tree, s: State, p: Path, x: Machine)
    requires ValidPath(t, p) && Fits(t, s) && Settled(t, s) && x.In(At(t, p).m)
    requires x.reset.kind.Async? && Acts(StateAt(t, s, p).store.values, x.reset)
    ensures Declared(x.s.stateType, x.Value(StateAt(t, s, p).store))
  {
    SettledAt(t, s, p);
    var m, values := At(t, p).m, StateAt(t, s, p).store.values;
    ActingIsAsserted(values, x.reset);
    Fixpoint.ResetAt(m, values, x.s.signal);
    assert Fixpoint.HeldAt(m, values, x.s.signal) == Encode(x.reset.value, x.s.stateType.ty.width);
  }

  lemma SetDeclared(t: Tree, s: State, y: Signal, value: Word, p: Path, x: Machine)
    requires ValidPath(t, p) && Fits(t, s) && Settleable(t) && IsInput(t.m, y) && x.In(At(t, p).m)
    requires Declared(x.s.stateType, x.Value(StateAt(t, s, p).store))
    ensures Declared(x.s.stateType, x.Value(StateAt(t, SetSignal(t, s, y, value), p).store))
  {
    if p == [] {
      SettleDeclares(t, s.WithValues(s.Values()[y := Masked(value, t.m.WidthOf(y))]), x);
    } else {
      SyncBelow(t.Child(p[0]), p[1..], x);
      SetAt(t, s, y, value, p);
      MachineFrame(At(t, p).m, StateAt(t, s, p).store, StateAt(t, SetSignal(t, s, y, value), p).store, x);
    }
  }

  lemma EdgeDeclared(t: Tree, s: State, edges: ClockEdges, p: Path, x: Machine)
    requires ValidPath(t, p) && Fits(t, s) && Settleable(t) && Settled(t, s) && x.In(At(t, p).m)
    requires Declared(x.s.stateType, x.Value(StateAt(t, s, p).store)) || EdgeResets(t, s, edges, p, x)
    ensures Declared(x.s.stateType, x.Value(StateAt(t, Tick(t, s, edges), p).store))
  {
    var m, st := At(t, p).m, StateAt(t, s, p).store;
    ActingIsAsserted(st.values, x.reset);
    LatchDeclared(m, st, EdgesAt(p, edges), x);
    if p == [] {
      TickOfSettled(t, s, edges);
      SettleDeclares(t, Advance(t, s, edges), x);
    } else {
      SyncBelow(t.Child(p[0]), p[1..], x);
      TickAt(t, s, edges, p);
      MachineFrame(m, LatchStore(m, st, EdgesAt(p, edges)), StateAt(t, Tick(t, s, edges), p).store, x);
    }
  }

  /** One call on a settled design: a reset, or a declared variant before, is
      followed by a declared variant. */
  lemma CallDeclared(t: Tree, s: State, e: Event, p: Path, x: Machine)
    requires ValidPath(t, p) && Fits(t, s) && Settleable(t) && Settled(t, s) && x.In(At(t, p).m)
    requires Settled(t, Apply(t, s, e)) && (e.SetTo? ==> IsInput(t.m, e.signal))
    requires Declared(x.s.stateType, x.Value(StateAt(t, s, p).store)) || ResetsNow(t, s, e, p, x)
    ensures Declared(x.s.stateType, x.Value(StateAt(t, Apply(t, s, e), p).store))
  {
    if x.reset.kind.Async? && Acts(StateAt(t, Apply(t, s, e), p).store.values, x.reset) {
      AssertedDeclares(t, Apply(t, s, e), p, x);
    } else if e.SetTo? {
      SetDeclared(t, s, e.signal, e.value, p, x);
    } else {
      EdgeDeclared(t, s, e.edges, p, x);
    }
  }

  /** An edge of the register's clock with its reset at the level at which it acts. */
  predicate EdgeResets(t: Tree, s: State, edges: ClockEdges, p: Path, x: Machine)
    requires ValidPath(t, p) && Fits(t, s)
  {
    EdgesAt(p, edges).Rises(x.clock) && Acts(StateAt(t, s, p).store.values, x.reset)
  }

  /** The call applies the register's reset: at an edge of its clock, or, when it is
      asynchronous, by leaving it at that level. */
  predicate ResetsNow(t: Tree, s: State, e: Event, p: Path, x: Machine)
    requires ValidPath(t, p) && Fits(t, s)
  {
    || (e.Edge? && EdgeResets(t, s, e.edges, p, x))
    || (x.reset.kind.Async? && Acts(StateAt(t, Apply(t, s, e), p).store.values, x.reset))
  }

  lemma LastCallDeclares(t: Tree, events: seq<Event>, p: Path, x: Machine)
    requires ValidPath(t, p) && Settleable(t) && External(t, events) && x.In(At(t, p).m) && events != []
    requires HoldsDeclared(t, events[..|events| - 1], p, x) || ResetAt(t, events, p, x, |events| - 1)
    ensures HoldsDeclared(t, events, p, x)
  {
    var n := |events| - 1;
    ExternalBefore(t, events);
    RunSettled(t, events[..n]);
    RunSettled(t, events);
    CallDeclared(t, Run(t, Start(t), events[..n]), events[n], p, x);
  }

  lemma ResetEarlier(t: Tree, events: seq<Event>, p: Path, x: Machine, k: nat)
    requires ValidPath(t, p) && k < |events| - 1 && ResetAt(t, events, p, x, k)
    ensures ResetAt(t, events[..|events| - 1], p, x, k)
  {
    assert events[..|events| - 1][..k] == events[..k];
  }

  lemma ExternalBefore(t: Tree, events: seq<Event>)
    requires External(t, events) && events != []
    ensures External(t, events[..|events| - 1])
  {
  }

  /** Once a reset has been applied, the register holds a declared
      variant in every later state, wherever in the design it is. */
  lemma {:induction false} AlwaysDeclared(t: Tree, events: seq<Event>, p: Path, x: Machine, k: nat)
    requires ValidPath(t, p) && Settleable(t) && External(t, events) && x.In(At(t, p).m)
    requires k < |events| && ResetAt(t, events, p, x, k)
    ensures HoldsDeclared(t, events, p, x)
    decreases |events|
  {
    if k < |events| - 1 {
      ResetEarlier(t, events, p, x, k);
      ExternalBefore(t, events);
      AlwaysDeclared(t, events[..|events| - 1], p, x, k);
    }
    LastCallDeclares(t, events, p, x);
  }

  /** Variants that passed the range and duplicate checks have different codes, so
      a declared word names one of them. */
  lemma CodesDiffer(ty: StateType, i: nat, j: nat)
    requires i < |ty.variants| && j < |ty.variants| && 0 < ty.ty.width <= BITS
    requires FitsType(ty.variants[i].value, ty.ty) && FitsType(ty.variants[j].value, ty.ty)
    requires FitsSigned(ty.variants[i].value, BITS) && FitsSigned(ty.variants[j].value, BITS)
    requires ty.variants[i].value != ty.variants[j].value
    ensures Encode(ty.variants[i].value, ty.ty.width) != Encode(ty.variants[j].value, ty.ty.width)
  {
    var v, u, w := ty.variants[i].value, ty.variants[j].value, ty.ty.width;
    LowLow(v, w, BITS);
    LowLow(u, w, BITS);
    if ty.ty.signedness.Signed? || w == BITS {
      SignedRoundTrip(v, w);
      SignedRoundTrip(u, w);
    } else {
      LowSmall(v, w);
      LowSmall(u, w);
    }
  }
}
