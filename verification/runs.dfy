/** Runs of a whole design, seen at any instance of the hierarchy. */
module Runs {
  import opened Words
  import opened Rtl
  import opened Semantics
  import opened Simulation
  import opened Depends
  import opened Settling
  import opened Convergence
  import opened Bound
  import opened Fixpoint
  import opened Range
  import opened FifoControl
  import opened Stages
  import opened Streams

  // ------------------------------------------------------ places in a design

  type Path = seq<nat>

  predicate ValidPath(t: Tree, p: Path)
    decreases |p|
  {
    p == [] || (p[0] < |t.instances| && ValidPath(t.Child(p[0]), p[1..]))
  }

  function At(t: Tree, p: Path): Tree
    requires ValidPath(t, p)
    decreases |p|
  {
    if p == [] then t else At(t.Child(p[0]), p[1..])
  }

  function StateAt(t: Tree, s: State, p: Path): (r: State)
    requires ValidPath(t, p) && Fits(t, s)
    ensures Fits(At(t, p), r)
    decreases |p|
  {
    if p == [] then s else StateAt(t.Child(p[0]), s.kids[p[0]], p[1..])
  }

  /** Children advance on every clock. */
  function EdgesAt(p: Path, edges: ClockEdges): ClockEdges {
    if p == [] then edges else AllClocks
  }

  lemma {:induction false} SettledAt(t: Tree, s: State, p: Path)
    requires ValidPath(t, p) && Fits(t, s) && Settled(t, s)
    ensures Settled(At(t, p), StateAt(t, s, p))
    decreases |p|
  {
    if p != [] {
      SettledAt(t.Child(p[0]), s.kids[p[0]], p[1..]);
    }
  }

  lemma {:induction false} RangeAt(t: Tree, s: State, p: Path)
    requires ValidPath(t, p) && Fits(t, s) && AllInRange(t, s)
    ensures InRange(At(t, p).m, StateAt(t, s, p).store)
    decreases |p|
  {
    if p != [] {
      RangeAt(t.Child(p[0]), s.kids[p[0]], p[1..]);
    }
  }

  lemma SettledEquations(t: Tree, s: State)
    requires Fits(t, s) && Settled(t, s)
    ensures EquationsHold(t.m, s.store)
  {
    forall a | a in t.m.assignments && t.m.Owns(a.dst)
      ensures Get(s.Values(), a.dst) == Masked(Eval(t.m, s.store, a.expr), t.m.WidthOf(a.dst))
    {
      var j :| 0 <= j < |t.m.assignments| && t.m.assignments[j] == a;
      assert AssignOk(t.m, s.store, t.m.assignments[j]);
    }
  }

  // --------------------------------------------------------- stored values

  /** A register that only a clock edge can change. */
  lemma RegUndriven(t: Tree, i: nat)
    requires Sane(t) && i < |t.m.signals| && t.m.signals[i].kind.Reg?
    ensures !Driven(t, t.m.Handle(i)) && !IsInput(t.m, t.m.Handle(i))
  {
    if Driven(t, t.m.Handle(i)) {
      DrivenIsDrivable(t, t.m.Handle(i));
    }
  }

  lemma StoredRegs(t: Tree, a: State, b: State)
    requires Fits(t, a) && Fits(t, b) && Sane(t) && SameStored(t, a, b)
    ensures SameRegs(t.m, a.store, b.store)
  {
    forall i | 0 <= i < |t.m.signals| && t.m.signals[i].kind.Reg? && !HasAsync(t.m.signals[i])
      ensures Get(a.Values(), t.m.Handle(i)) == Get(b.Values(), t.m.Handle(i))
    {
      RegUndriven(t, i);
    }
  }

  /** The state keeps its synchronously reset registers and memories, at the top
      and in every child. */
  ghost predicate Keeps(t: Tree, a: State, b: State)
    requires Fits(t, a) && Fits(t, b)
  {
    && SameRegs(t.m, a.store, b.store)
    && forall i | 0 <= i < |t.instances| :: SameStored(t.Child(i), a.kids[i], b.kids[i])
  }

  lemma KeepsAt(t: Tree, a: State, b: State, p: Path)
    requires ValidPath(t, p) && Fits(t, a) && Fits(t, b) && Sane(t) && Keeps(t, a, b)
    ensures SameRegs(At(t, p).m, StateAt(t, a, p).store, StateAt(t, b, p).store)
  {
    if p != [] {
      StoredAt(t.Child(p[0]), a.kids[p[0]], b.kids[p[0]], p[1..]);
    }
  }

  lemma {:induction false} StoredAt(t: Tree, a: State, b: State, p: Path)
    requires ValidPath(t, p) && Fits(t, a) && Fits(t, b) && Sane(t) && SameStored(t, a, b)
    ensures SameRegs(At(t, p).m, StateAt(t, a, p).store, StateAt(t, b, p).store)
    decreases |p|
  {
    if p == [] {
      StoredRegs(t, a, b);
    } else {
      StoredAt(t.Child(p[0]), a.kids[p[0]], b.kids[p[0]], p[1..]);
    }
  }

  lemma PassKeeps(t: Tree, s: State)
    requires Fits(t, s) && Settleable(t)
    ensures Keeps(t, s, Pass(t, s).state)
  {
    PassSteps(t, s);
    forall i | 0 <= i < |t.instances|
      ensures SameStored(t.Child(i), s.kids[i], Pass(t, s).state.kids[i])
    {
      KidsAfter(t, s, i);
    }
    forall i | 0 <= i < |t.m.signals| && t.m.signals[i].kind.Reg? && !HasAsync(t.m.signals[i])
      ensures Get(s.Values(), t.m.Handle(i)) == Get(Pass(t, s).state.Values(), t.m.Handle(i))
    {
      RegUndriven(t, i);
      PassFrame(t, s, t.m.Handle(i));
    }
  }

  lemma KeepsTrans(t: Tree, a: State, b: State, c: State)
    requires Fits(t, a) && Fits(t, b) && Fits(t, c) && Keeps(t, a, b) && Keeps(t, b, c)
    ensures Keeps(t, a, c)
  {
    forall i | 0 <= i < |t.instances|
      ensures SameStored(t.Child(i), a.kids[i], c.kids[i])
    {
      SameStoredTrans(t.Child(i), a.kids[i], b.kids[i], c.kids[i]);
    }
  }

  lemma KeepsSelf(t: Tree, s: State, s': State)
    requires Fits(t, s) && Fits(t, s') && s.kids == s'.kids && s.store.mems == s'.store.mems
    requires forall i | 0 <= i < |t.m.signals| && t.m.signals[i].kind.Reg? ::
               Get(s.Values(), t.m.Handle(i)) == Get(s'.Values(), t.m.Handle(i))
    ensures Keeps(t, s, s')
  {
    forall i | 0 <= i < |t.instances|
      ensures SameStored(t.Child(i), s.kids[i], s'.kids[i])
    {
      SameStoredRefl(t.Child(i), s.kids[i], s'.kids[i]);
    }
  }

  /** Settling keeps every stored value. */
  lemma {:induction false} LoopKeeps(t: Tree, s: State, n: nat)
    requires Fits(t, s) && Settleable(t)
    ensures Keeps(t, s, Loop(t, s, n))
    decreases n
  {
    if n == 0 {
      KeepsSelf(t, s, s);
    } else {
      PassKeeps(t, s);
      LoopStep(t, s, n);
      if Pass(t, s).changed && n > 1 {
        LoopKeeps(t, Pass(t, s).state, n - 1);
        KeepsTrans(t, s, Pass(t, s).state, Loop(t, Pass(t, s).state, n - 1));
      }
    }
  }

  // ------------------------------------------------------------- clock edges

  /** On a settled state a tick is the edge followed by settling. */
  lemma TickOfSettled(t: Tree, s: State, edges: ClockEdges)
    requires Fits(t, s) && Settled(t, s)
    ensures Tick(t, s, edges) == Settle(t, Advance(t, s, edges))
  {
    SettledFixed(t, s);
    PrepareFixed(t, s);
  }

  lemma {:induction false} PrepareFixed(t: Tree, s: State)
    requires Fits(t, s) && Settled(t, s)
    ensures Prepare(t, s) == s
    decreases t
  {
    KidsFixed(t, s);
    forall i | 0 <= i < |t.instances|
      ensures Prepare(t, s).kids[i] == s.kids[i]
    {
      PrepareFixed(t.Child(i), s.kids[i]);
    }
    assert Prepare(t, s).kids == s.kids;
  }

  lemma {:induction false} AdvanceAt(t: Tree, s: State, edges: ClockEdges, p: Path)
    requires ValidPath(t, p) && Fits(t, s)
    ensures StateAt(t, Advance(t, s, edges), p).store
         == LatchStore(At(t, p).m, StateAt(t, s, p).store, EdgesAt(p, edges))
    decreases |p|
  {
    if p != [] {
      AdvanceAt(t.Child(p[0]), s.kids[p[0]], AllClocks, p[1..]);
    }
  }

  /** What a tick does to the stored values of any instance: exactly the edge,
      evaluated on the settled state before it. */
  lemma TickAt(t: Tree, s: State, edges: ClockEdges, p: Path)
    requires ValidPath(t, p) && Fits(t, s) && Settleable(t) && Settled(t, s)
    ensures SameRegs(At(t, p).m,
                     LatchStore(At(t, p).m, StateAt(t, s, p).store, EdgesAt(p, edges)),
                     StateAt(t, Tick(t, s, edges), p).store)
    ensures Settled(t, Tick(t, s, edges))
  {
    TickOfSettled(t, s, edges);
    AdvanceAt(t, s, edges, p);
    var a := Advance(t, s, edges);
    LoopKeeps(t, a, Limit(t));
    KeepsAt(t, a, Settle(t, a), p);
    SettleSettles(t, a);
  }

  /** `set` on an input port keeps the stored values of every instance. */
  lemma SetAt(t: Tree, s: State, x: Signal, value: Word, p: Path)
    requires ValidPath(t, p) && Fits(t, s) && Settleable(t) && IsInput(t.m, x)
    ensures SameRegs(At(t, p).m, StateAt(t, s, p).store, StateAt(t, SetSignal(t, s, x, value), p).store)
    ensures Settled(t, SetSignal(t, s, x, value))
  {
    var s' := s.WithValues(s.Values()[x := Masked(value, t.m.WidthOf(x))]);
    KeepsSelf(t, s, s');
    LoopKeeps(t, s', Limit(t));
    KeepsTrans(t, s, s', Settle(t, s'));
    KeepsAt(t, s, Settle(t, s'), p);
    SettleSettles(t, s');
  }

  // ----------------------------------------------------------------- runs

  /** Calls a test bench makes: inputs are set, clocks tick. */
  predicate External(t: Tree, events: seq<Event>) {
    forall i | 0 <= i < |events| && events[i].SetTo? :: IsInput(t.m, events[i].signal)
  }

  function Start(t: Tree): (s: State)
    ensures Fits(t, s)
  {
    Settle(t, InitialState(t))
  }

  lemma {:induction false} RunSettled(t: Tree, events: seq<Event>)
    requires Settleable(t) && External(t, events)
    ensures Settled(t, Run(t, Start(t), events)) && AllInRange(t, Run(t, Start(t), events))
    decreases |events|
  {
    RunRange(t, events);
    if events == [] {
      SettleSettles(t, InitialState(t));
    } else {
      var before, e := events[..|events| - 1], events[|events| - 1];
      RunSettled(t, before);
      var s := Run(t, Start(t), before);
      match e
      case SetTo(x, value) => SetAt(t, s, x, value, []);
      case Edge(edges) => TickAt(t, s, edges, []);
    }
  }

  /** What the stage at `p` exchanges over a run: one cycle for every edge of its
      clock, read off the settled state before the edge. */
  function TraceOf(t: Tree, events: seq<Event>, p: Path, n: StageNet): Trace
    requires ValidPath(t, p)
    decreases |events|
  {
    if events == [] then []
    else
      var before, e := events[..|events| - 1], events[|events| - 1];
      TraceOf(t, before, p, n)
      + if e.Edge? && EdgesAt(p, e.edges).Rises(n.Clock())
        then [StageObserve(StateAt(t, Run(t, Start(t), before), p).store, n)]
        else []
  }

  lemma {:induction false} InitialAt(t: Tree, p: Path)
    requires ValidPath(t, p)
    ensures StateAt(t, InitialState(t), p).store == InitialStore(At(t, p).m)
    decreases |p|
  {
    if p != [] {
      InitialAt(t.Child(p[0]), p[1..]);
    }
  }

  /** What the stage holds after a run. */
  predicate Holds(t: Tree, events: seq<Event>, p: Path, n: StageNet, q: seq<Item>)
    requires ValidPath(t, p)
  {
    HoldsIn(t, Run(t, Start(t), events), p, n, q)
  }

  predicate HoldsIn(t: Tree, s: State, p: Path, n: StageNet, q: seq<Item>)
    requires ValidPath(t, p) && Fits(t, s)
  {
    StageInv(StateAt(t, s, p).store, n) && StageQueue(StateAt(t, s, p).store, n) == q
  }

  lemma StartHolds(t: Tree, p: Path, n: StageNet)
    requires ValidPath(t, p) && Settleable(t) && HasStage(At(t, p).m, n) && NoInitial(At(t, p).m, n)
    ensures Holds(t, [], p, n, [])
  {
    LoopKeeps(t, InitialState(t), Limit(t));
    KeepsAt(t, InitialState(t), Start(t), p);
    InitialAt(t, p);
    StageEmpty(At(t, p).m, n);
    StageFrame(At(t, p).m, InitialStore(At(t, p).m), StateAt(t, Start(t), p).store, n);
  }

  /** A stage in a settled design: its equations hold and its words fit. */
  lemma StageReady(t: Tree, s: State, p: Path)
    requires ValidPath(t, p) && Fits(t, s) && Settled(t, s) && AllInRange(t, s)
    ensures EquationsHold(At(t, p).m, StateAt(t, s, p).store)
    ensures InRange(At(t, p).m, StateAt(t, s, p).store)
  {
    SettledAt(t, s, p);
    SettledEquations(At(t, p), StateAt(t, s, p));
    RangeAt(t, s, p);
  }

  /** A clock edge steps the stage, or leaves it alone. */
  lemma EdgeHolds(t: Tree, s: State, edges: ClockEdges, p: Path, n: StageNet)
    requires ValidPath(t, p) && Fits(t, s) && Settleable(t) && Settled(t, s) && AllInRange(t, s)
    requires HasStage(At(t, p).m, n) && StageInv(StateAt(t, s, p).store, n)
    ensures
      var st, st' := StateAt(t, s, p).store, StateAt(t, Tick(t, s, edges), p).store;
      var q := StageQueue(st, n);
      && StageInv(st', n)
      && (if EdgesAt(p, edges).Rises(n.Clock())
          then Shows(n.Kind(), q, StageObserve(st, n)) && StageQueue(st', n) == QueueStep(q, StageObserve(st, n))
          else StageQueue(st', n) == q)
  {
    var m, st, there := At(t, p).m, StateAt(t, s, p).store, EdgesAt(p, edges);
    StageReady(t, s, p);
    TickAt(t, s, edges, p);
    if there.Rises(n.Clock()) {
      NetShows(m, st, n);
      NetStep(m, st, there, n);
    } else {
      NetIdle(m, st, there, n);
    }
    StageFrame(m, LatchStore(m, st, there), StateAt(t, Tick(t, s, edges), p).store, n);
  }

  /** One call moves the stage's contents as its trace says. */
  lemma SetHolds(t: Tree, s: State, x: Signal, value: Word, p: Path, n: StageNet)
    requires ValidPath(t, p) && Fits(t, s) && Settleable(t) && IsInput(t.m, x)
    requires HasStage(At(t, p).m, n) && StageInv(StateAt(t, s, p).store, n)
    ensures
      var st, st' := StateAt(t, s, p).store, StateAt(t, SetSignal(t, s, x, value), p).store;
      StageInv(st', n) && StageQueue(st', n) == StageQueue(st, n)
  {
    SetAt(t, s, x, value, p);
    StageFrame(At(t, p).m, StateAt(t, s, p).store, StateAt(t, SetSignal(t, s, x, value), p).store, n);
  }

  /** One call on a settled design, seen by a stage. */
  lemma CallStep(t: Tree, s: State, e: Event, p: Path, n: StageNet, q: seq<Item>)
    requires ValidPath(t, p) && Fits(t, s) && Settleable(t) && Settled(t, s) && AllInRange(t, s)
    requires e.SetTo? ==> IsInput(t.m, e.signal)
    requires HasStage(At(t, p).m, n) && HoldsIn(t, s, p, n, q)
    ensures
      var st := StateAt(t, s, p).store;
      if e.Edge? && EdgesAt(p, e.edges).Rises(n.Clock())
      then Shows(n.Kind(), q, StageObserve(st, n))
           && HoldsIn(t, Apply(t, s, e), p, n, QueueStep(q, StageObserve(st, n)))
      else HoldsIn(t, Apply(t, s, e), p, n, q)
  {
    if e.SetTo? {
      SetHolds(t, s, e.signal, e.value, p, n);
    } else {
      EdgeHolds(t, s, e.edges, p, n);
    }
  }

  lemma RunStep(t: Tree, s: State, events: seq<Event>)
    requires Fits(t, s) && events != []
    ensures Run(t, s, events) == Apply(t, Run(t, s, events[..|events| - 1]), events[|events| - 1])
  {
  }

  lemma CallHolds(t: Tree, events: seq<Event>, p: Path, n: StageNet, q: seq<Item>)
    requires ValidPath(t, p) && Settleable(t) && External(t, events) && |events| > 0
    requires HasStage(At(t, p).m, n)
    requires Holds(t, events[..|events| - 1], p, n, q)
    ensures
      var before, e := events[..|events| - 1], events[|events| - 1];
      var st := StateAt(t, Run(t, Start(t), before), p).store;
      if e.Edge? && EdgesAt(p, e.edges).Rises(n.Clock())
      then Shows(n.Kind(), q, StageObserve(st, n))
           && Holds(t, events, p, n, QueueStep(q, StageObserve(st, n)))
      else Holds(t, events, p, n, q)
  {
    var before := events[..|events| - 1];
    RunSettled(t, before);
    RunStep(t, Start(t), events);
    CallStep(t, Run(t, Start(t), before), events[|events| - 1], p, n, q);
  }

  /** End to end: a generated stage anywhere in a settleable design, run from
      construction through any calls, behaves as its queue. */
  lemma {:induction false} StageRun(t: Tree, events: seq<Event>, p: Path, n: StageNet)
    requires ValidPath(t, p) && Settleable(t) && External(t, events)
    requires HasStage(At(t, p).m, n) && NoInitial(At(t, p).m, n)
    ensures IsTrace(n.Kind(), TraceOf(t, events, p, n))
    ensures Holds(t, events, p, n, QueueAfter([], TraceOf(t, events, p, n)))
    decreases |events|
  {
    RunTraced(t, events, p, n);
  }

  /** The trace so far is a trace of the stage, which holds what the trace says. */
  ghost predicate Traced(t: Tree, events: seq<Event>, p: Path, n: StageNet)
    requires ValidPath(t, p)
  {
    && IsTrace(n.Kind(), TraceOf(t, events, p, n))
    && Holds(t, events, p, n, QueueAfter([], TraceOf(t, events, p, n)))
  }

  lemma StartTraced(t: Tree, p: Path, n: StageNet)
    requires ValidPath(t, p) && Settleable(t) && HasStage(At(t, p).m, n) && NoInitial(At(t, p).m, n)
    ensures Traced(t, [], p, n)
  {
    StartHolds(t, p, n);
  }

  lemma CallTraced(t: Tree, events: seq<Event>, p: Path, n: StageNet)
    requires ValidPath(t, p) && Settleable(t) && External(t, events) && |events| > 0
    requires HasStage(At(t, p).m, n) && Traced(t, events[..|events| - 1], p, n)
    ensures Traced(t, events, p, n)
  {
    var before := events[..|events| - 1];
    CallHolds(t, events, p, n, QueueAfter([], TraceOf(t, before, p, n)));
    ExtendTrace(n.Kind(), TraceOf(t, before, p, n), TraceOf(t, events, p, n));
  }

  lemma {:induction false} RunTraced(t: Tree, events: seq<Event>, p: Path, n: StageNet)
    requires ValidPath(t, p) && Settleable(t) && External(t, events)
    requires HasStage(At(t, p).m, n) && NoInitial(At(t, p).m, n)
    ensures Traced(t, events, p, n)
    decreases |events|
  {
    if events == [] {
      StartTraced(t, p, n);
    } else {
      RunTraced(t, events[..|events| - 1], p, n);
      CallTraced(t, events, p, n);
    }
  }

  lemma ExtendTrace(stage: Stage, a: Trace, b: Trace)
    requires IsTrace(stage, a)
    requires b == a || (|b| == |a| + 1 && b[..|a|] == a && Shows(stage, QueueAfter([], a), b[|a|]))
    ensures IsTrace(stage, b)
  {
    forall i | 0 <= i < |b|
      ensures Shows(stage, QueueAfter([], b[..i]), b[i])
    {
      if i < |a| {
        assert Shows(stage, QueueAfter([], a[..i]), a[i]);
        assert b[..i] == a[..i];
        assert b[i] == a[i];
      } else {
        assert i == |a| && b[..i] == a;
      }
    }
  }
}
