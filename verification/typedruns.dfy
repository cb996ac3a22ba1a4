/** What the type checks buy: in every state a validated design reaches, each
    destination, register and memory word holds exactly what its expression means,
    and reads as the same integer, at every level. */
module TypedRuns {
  import opened Words
  import opened Rtl
  import opened Semantics
  import opened Agreement
  import opened Readings
  import opened Simulation
  import opened Depends
  import opened Settling
  import opened Bound
  import opened Range
  import opened Stages
  import opened Runs
  import opened TypeCheck
  import opened Designs
  import opened ResetLevels
  import Compile
  import Gates

  /** The integer a signal holds. */
  function IntegerIn(m: Module, st: Store, x: Signal): int
    requires m.Owns(x)
  {
    Reading(m.signals[x.id].ty, Get(st.values, x))
  }

  // ------------------------------------------------------------- one module

  /** A destination of the expression's type takes its meaning whole. */
  lemma StoredWhole(m: Module, st: Store, e: Expr, ty: BitType)
    requires WellTyped(m, e) && TypeOf(m, e) == Some(ty) && InRange(m, st) && Disciplined(m, e)
    ensures Masked(Eval(m, st, e), ty.width) == Meaning(m, st, e)
    ensures Reading(ty, Masked(Eval(m, st, e), ty.width)) == Reads(m, st, e)
  {
    EvalAgrees(m, st, e);
  }

  /** A settled assignment: no truncation, and the same integer on both sides. */
  lemma AssignedWhole(m: Module, st: Store, a: Assignment)
    requires AssignmentOk(m, a) && AssignOk(m, st, a) && InRange(m, st) && Disciplined(m, a.expr)
    ensures Get(st.values, a.dst) == Meaning(m, st, a.expr)
    ensures IntegerIn(m, st, a.dst) == Reads(m, st, a.expr)
  {
    StoredWhole(m, st, a.expr, m.signals[a.dst.id].ty);
  }

  /** The one-bit signals the checks ask for hold 0 or 1. */
  lemma OneBitHolds(m: Module, st: Store, x: Signal)
    requires m.Owns(x) && m.WidthOf(x) == 1 && InRange(m, st)
    ensures Get(st.values, x) == 0 || Get(st.values, x) == 1
  {
    assert Pow2(1) == 2;
  }

  /** So the clock and the reset of an accepted register, and the clock of an accepted
      write or check, are the module's own and at 0 or 1. */
  lemma ControlIsBit(m: Module, st: Store, i: nat)
    requires i < |m.signals| && m.signals[i].kind.Reg? && RegisterOk(m, m.signals[i]) && InRange(m, st)
    ensures
      var kind := m.signals[i].kind;
      && kind.clock.Some? && IsBit(m, st, kind.clock.value)
      && (kind.reset.Some? ==> IsBit(m, st, kind.reset.value.signal))
  {
    OneBitHolds(m, st, m.signals[i].kind.clock.value);
    if m.signals[i].kind.reset.Some? {
      OneBitHolds(m, st, m.signals[i].kind.reset.value.signal);
    }
  }

  predicate IsBit(m: Module, st: Store, x: Signal) {
    m.Owns(x) && (Get(st.values, x) == 0 || Get(st.values, x) == 1)
  }

  /** A register after an edge of its clock: the integer of its reset value while
      its reset is at the acting level, and what its next value means otherwise. */
  lemma RegisterWhole(m: Module, st: Store, edges: ClockEdges, i: nat)
    requires i < |m.signals| && m.signals[i].kind.Reg? && RegisterOk(m, m.signals[i]) && InRange(m, st)
    requires edges.Register(m.signals[i]) && Disciplined(m, m.signals[i].kind.next.value)
    requires m.signals[i].ty.width < BITS
    ensures
      var kind, x := m.signals[i].kind, m.Handle(i);
      IntegerIn(m, LatchStore(m, st, edges), x)
      == if kind.reset.Some? && Acts(st.values, kind.reset.value) then kind.reset.value.value
         else Reads(m, st, kind.next.value)
  {
    var info := m.signals[i];
    assert Get(LatchStore(m, st, edges).values, m.Handle(i)) == NextValue(m, st, i);
    if info.kind.reset.Some? && Acts(st.values, info.kind.reset.value) {
      ActingIsAsserted(st.values, info.kind.reset.value);
      ResetWhole(info.kind.reset.value.value, info.ty);
    } else {
      NextWhole(m, st, i);
    }
  }

  lemma NextWhole(m: Module, st: Store, i: nat)
    requires i < |m.signals| && m.signals[i].kind.Reg? && RegisterOk(m, m.signals[i]) && InRange(m, st)
    requires Disciplined(m, m.signals[i].kind.next.value)
    requires m.signals[i].kind.reset.Some? ==> !Acts(st.values, m.signals[i].kind.reset.value)
    ensures Reading(m.signals[i].ty, NextValue(m, st, i)) == Reads(m, st, m.signals[i].kind.next.value)
  {
    StoredWhole(m, st, m.signals[i].kind.next.value, m.signals[i].ty);
  }

  lemma ResetWhole(v: int, ty: BitType)
    requires FitsType(v, ty) && ty.width < BITS
    ensures Masked(Encode(v, ty.width), ty.width) == Encode(v, ty.width) == Low(v, ty.width)
    ensures Reading(ty, Encode(v, ty.width)) == v
  {
    LowLow(v, ty.width, BITS);
    LowLow(v, ty.width, ty.width);
    ReadingOf(ty, v);
  }

  /** A memory write of a validated module: it fires exactly when its enable means
      1, at the address its address means, with the integer its data means. */
  lemma WriteWhole(m: Module, st: Store, edges: ClockEdges, w: MemoryWrite, mems: Memories)
    requires WriteOk(m, w) && InRange(m, st) && edges.Write(w) && w.mem in mems
    requires Disciplined(m, w.enable) && Canonical(m, w.enable) && Disciplined(m, w.data)
    requires Disciplined(m, w.addr) && Canonical(m, w.addr) && Width(m, w.addr) <= 64
    ensures IsBit(m, st, w.clock)
    ensures Meaning(m, st, w.enable) == 0 || Meaning(m, st, w.enable) == 1
    ensures Meaning(m, st, w.addr) < Pow2(m.signals[w.mem.id].kind.addrWidth)
    ensures
      var after, a := WriteOne(m, st, edges, w, mems), Meaning(m, st, w.addr);
      if Meaning(m, st, w.enable) == 1 && a < |mems[w.mem]|
      then w.mem in after && |after[w.mem]| == |mems[w.mem]|
           && Reading(m.signals[w.mem.id].ty, after[w.mem][a]) == Reads(m, st, w.data)
           && forall b | 0 <= b < |mems[w.mem]| && b != a :: after[w.mem][b] == mems[w.mem][b]
      else after == mems
  {
    assert Pow2(1) == 2;
    OneBitHolds(m, st, w.clock);
    EvalAgrees(m, st, w.enable);
    EvalAgrees(m, st, w.addr);
    MeaningBound(m, st, w.enable);
    MeaningBound(m, st, w.addr);
    Pow2Mono(Width(m, w.addr), 64);
    LowSmall(Meaning(m, st, w.addr), 64);
    StoredWhole(m, st, w.data, m.signals[w.mem.id].ty);
  }

  /** The condition of an accepted assertion or cover point is a bit. */
  lemma CheckIsBit(m: Module, st: Store, c: Check)
    requires Compile.CheckOk(m, c) && InRange(m, st)
    ensures Meaning(m, st, c.condition) == 0 || Meaning(m, st, c.condition) == 1
    ensures c.enable.Some? ==>
              Meaning(m, st, c.enable.value) == 0 || Meaning(m, st, c.enable.value) == 1
    ensures c.clock.Some? ==> IsBit(m, st, c.clock.value)
  {
    assert Pow2(1) == 2;
    if c.clock.Some? {
      OneBitHolds(m, st, c.clock.value);
    }
    MeaningBound(m, st, c.condition);
    if c.enable.Some? {
      MeaningBound(m, st, c.enable.value);
    }
  }

  // ------------------------------------------------------------- every level

  /** Both ends of a connection have one type. */
  predicate SameTypes(m: Module, child: Module, c: Conn) {
    m.Owns(c.parent) && child.Owns(c.port) && m.signals[c.parent.id].ty == child.signals[c.port.id].ty
  }

  predicate InstanceTyped(m: Module, inst: Instance) {
    && (forall o | 0 <= o < |inst.inputs| :: SameTypes(m, inst.child.m, inst.inputs[o]))
    && (forall o | 0 <= o < |inst.outputs| :: SameTypes(m, inst.child.m, inst.outputs[o]))
  }

  predicate Typed(t: Tree)
    decreases t
  {
    && LogicOk(t.m)
    && (forall i | 0 <= i < |t.instances| :: InstanceTyped(t.m, t.instances[i]) && Typed(t.Child(i)))
  }

  lemma ConnsTyped(d: Design, m: SourceModule, inst: SourceInstance, inputs: bool, o: nat)
    requires InstanceFine(d, m, inst)
    requires o < |ConnsOf(d[FindModule(d, inst.target).value], inst, inputs)|
    ensures
      var target := d[FindModule(d, inst.target).value];
      SameTypes(m.logic, target.logic, ConnsOf(target, inst, inputs)[o])
  {
    var target := d[FindModule(d, inst.target).value];
    var k := ConnOrigin(target, inst.connections, inputs, |inst.connections|, o);
    assert ConnectionFine(m, target, inst.connections[k]);
  }

  lemma {:induction false} ElaboratedTyped(d: Design, m: SourceModule, t: Tree)
    requires ModulesFine(d) && ModuleFine(d, m) && Elaborates(d, m, t)
    ensures Typed(t)
    decreases t
  {
    forall i | 0 <= i < |t.instances|
      ensures InstanceTyped(t.m, t.instances[i]) && Typed(t.Child(i))
    {
      InstanceTarget(d, m, t, i);
      ElaboratedTyped(d, d[FindModule(d, m.instances[i].target).value], t.Child(i));
      TypedInstance(d, m, m.instances[i], t.m, t.instances[i]);
    }
  }

  lemma TypedInstance(d: Design, m: SourceModule, inst: SourceInstance, parent: Module, e: Instance)
    requires InstanceFine(d, m, inst) && ElaboratedInstance(d, inst, e) && parent == m.logic
    requires e.child.m == d[FindModule(d, inst.target).value].logic
    ensures InstanceTyped(parent, e)
  {
    forall o | 0 <= o < |e.inputs|
      ensures SameTypes(parent, e.child.m, e.inputs[o])
    {
      ConnsTyped(d, m, inst, true, o);
    }
    forall o | 0 <= o < |e.outputs|
      ensures SameTypes(parent, e.child.m, e.outputs[o])
    {
      ConnsTyped(d, m, inst, false, o);
    }
  }

  lemma {:induction false} TypedAt(t: Tree, p: Path)
    requires Typed(t) && ValidPath(t, p)
    ensures Typed(At(t, p))
    decreases |p|
  {
    if p != [] {
      TypedAt(t.Child(p[0]), p[1..]);
    }
  }

  /** In a settled state both ends of a connection read the same. */
  lemma ConnectedWhole(t: Tree, s: State, i: nat, o: nat)
    requires Fits(t, s) && Sane(t) && Typed(t) && Settled(t, s) && AllInRange(t, s) && i < |t.instances|
    ensures o < |t.instances[i].inputs| ==>
              var c := t.instances[i].inputs[o];
              SameTypes(t.m, t.Child(i).m, c)
              && IntegerIn(t.Child(i).m, s.kids[i].store, c.port) == IntegerIn(t.m, s.store, c.parent)
    ensures o < |t.instances[i].outputs| ==>
              var c := t.instances[i].outputs[o];
              SameTypes(t.m, t.Child(i).m, c)
              && IntegerIn(t.Child(i).m, s.kids[i].store, c.port) == IntegerIn(t.m, s.store, c.parent)
  {
    var inst, kid := t.instances[i], s.kids[i];
    assert InstanceTyped(t.m, inst);
    if o < |inst.inputs| {
      assert InputOk(inst, s.Values(), kid, inst.inputs[o]);
      SignalFits(t.m, s.store, inst.inputs[o].parent);
    }
    if o < |inst.outputs| {
      assert OutputOk(inst, s.Values(), kid, inst.outputs[o]);
      assert AllInRange(t.Child(i), kid);
      SignalFits(t.Child(i).m, kid.store, inst.outputs[o].port);
    }
  }

  lemma SignalFits(m: Module, st: Store, x: Signal)
    requires m.Owns(x) && InRange(m, st)
    ensures Masked(Get(st.values, x), m.WidthOf(x)) == Get(st.values, x)
  {
    Gates.MaskedSmall(Get(st.values, x), m.WidthOf(x));
  }

  // -------------------------------------------------------------------- runs

  /** On every run of a validated, settleable design, every assignment of every
      instance holds: the destination has exactly what the expression means, as
      the same integer. */
  lemma RunsWhole(d: Design, m: SourceModule, t: Tree, events: seq<Event>, p: Path, a: Assignment)
    requires ModulesFine(d) && ModuleFine(d, m) && Elaborates(d, m, t)
    requires Settleable(t) && External(t, events) && ValidPath(t, p)
    requires a in At(t, p).m.assignments && Disciplined(At(t, p).m, a.expr)
    ensures
      var here, st := At(t, p).m, StateAt(t, Run(t, Start(t), events), p).store;
      && here.Owns(a.dst)
      && Get(st.values, a.dst) == Meaning(here, st, a.expr)
      && IntegerIn(here, st, a.dst) == Reads(here, st, a.expr)
  {
    var s := Run(t, Start(t), events);
    ElaboratedTyped(d, m, t);
    TypedAt(t, p);
    RunSettled(t, events);
    SettledAt(t, s, p);
    RangeAt(t, s, p);
    HoldsWhole(At(t, p), StateAt(t, s, p), a);
  }

  lemma HoldsWhole(u: Tree, s: State, a: Assignment)
    requires Fits(u, s) && Typed(u) && Settled(u, s) && InRange(u.m, s.store)
    requires a in u.m.assignments && Disciplined(u.m, a.expr)
    ensures
      && u.m.Owns(a.dst)
      && Get(s.Values(), a.dst) == Meaning(u.m, s.store, a.expr)
      && IntegerIn(u.m, s.store, a.dst) == Reads(u.m, s.store, a.expr)
  {
    var j :| 0 <= j < |u.m.assignments| && u.m.assignments[j] == a;
    assert AssignmentOk(u.m, a) && AssignOk(u.m, s.store, u.m.assignments[j]);
    AssignedWhole(u.m, s.store, a);
  }

  /** After one more edge a synchronously reset register of any instance holds the
      integer of its reset value, of its next value, or what it held. */
  lemma TicksWhole(d: Design, m: SourceModule, t: Tree, events: seq<Event>, edges: ClockEdges, p: Path, i: nat)
    requires ModulesFine(d) && ModuleFine(d, m) && Elaborates(d, m, t)
    requires Settleable(t) && External(t, events) && ValidPath(t, p)
    requires i < |At(t, p).m.signals| && At(t, p).m.signals[i].kind.Reg? && !HasAsync(At(t, p).m.signals[i])
    requires At(t, p).m.signals[i].kind.next.Some? ==> Disciplined(At(t, p).m, At(t, p).m.signals[i].kind.next.value)
    requires At(t, p).m.signals[i].ty.width < BITS
    ensures
      var here := At(t, p).m;
      var st := StateAt(t, Run(t, Start(t), events), p).store;
      var after := StateAt(t, Tick(t, Run(t, Start(t), events), edges), p).store;
      var kind, x := here.signals[i].kind, here.Handle(i);
      kind.next.Some?
      && IntegerIn(here, after, x)
         == if !EdgesAt(p, edges).Register(here.signals[i]) then IntegerIn(here, st, x)
            else if kind.reset.Some? && Acts(st.values, kind.reset.value) then kind.reset.value.value
            else Reads(here, st, kind.next.value)
  {
    var s := Run(t, Start(t), events);
    ElaboratedTyped(d, m, t);
    TypedAt(t, p);
    RunSettled(t, events);
    RangeAt(t, s, p);
    TickAt(t, s, edges, p);
    LatchWhole(At(t, p).m, StateAt(t, s, p).store, EdgesAt(p, edges), StateAt(t, Tick(t, s, edges), p).store, i);
  }

  lemma LatchWhole(m: Module, st: Store, edges: ClockEdges, after: Store, i: nat)
    requires LogicOk(m) && InRange(m, st) && SameRegs(m, LatchStore(m, st, edges), after)
    requires i < |m.signals| && m.signals[i].kind.Reg? && !HasAsync(m.signals[i])
    requires m.signals[i].kind.next.Some? ==> Disciplined(m, m.signals[i].kind.next.value)
    requires m.signals[i].ty.width < BITS
    ensures
      var kind, x := m.signals[i].kind, m.Handle(i);
      kind.next.Some?
      && IntegerIn(m, after, x)
         == if !edges.Register(m.signals[i]) then IntegerIn(m, st, x)
            else if kind.reset.Some? && Acts(st.values, kind.reset.value) then kind.reset.value.value
            else Reads(m, st, kind.next.value)
  {
    assert RegisterOk(m, m.signals[i]);
    if edges.Register(m.signals[i]) {
      RegisterWhole(m, st, edges, i);
    } else {
      assert Get(LatchStore(m, st, edges).values, m.Handle(i)) == Get(st.values, m.Handle(i));
    }
  }
}
