/** Clock domains: stepping every clock is a plain tick, and a domain that reads
    only its own state and the inputs does not notice the other clocks. */
module Clocks {
  import opened Words
  import opened Rtl
  import opened Semantics
  import opened Simulation
  import opened Depends
  import opened Paths
  import opened Settling
  import opened Convergence
  import opened Bound
  import opened Fixpoint
  import opened Range
  import opened Runs
  import Ranking

  // ------------------------------------------------------- every clock at once

  /** The set holds the clock of every register and memory write. */
  predicate Covers(m: Module, active: set<Signal>) {
    && (forall i | 0 <= i < |m.signals| && m.signals[i].kind.Reg? && m.signals[i].kind.clock.Some? ::
          m.signals[i].kind.clock.value in active)
    && (forall w | w in m.memoryWrites :: w.clock in active)
  }

  lemma {:induction false} AllWrites(m: Module, st: Store, active: set<Signal>, i: nat)
    requires Covers(m, active) && i <= |m.memoryWrites|
    ensures WritesApplied(m, st, Only(active), i) == WritesApplied(m, st, AllClocks, i)
  {
    if i > 0 {
      AllWrites(m, st, active, i - 1);
      CoveredWrite(m, st, active, m.memoryWrites[i - 1], WritesApplied(m, st, AllClocks, i - 1));
    }
  }

  lemma CoveredWrite(m: Module, st: Store, active: set<Signal>, w: MemoryWrite, mems: Memories)
    requires w.clock in active
    ensures WriteOne(m, st, Only(active), w, mems) == WriteOne(m, st, AllClocks, w, mems)
  {
  }

  /** `tick_clocked` with every clock of the module active is `tick_checked`. */
  lemma EveryClockIsTick(t: Tree, s: State, active: set<Signal>)
    requires Fits(t, s) && Covers(t.m, active)
    ensures Tick(t, s, Only(active)) == Tick(t, s, AllClocks)
  {
    var st := Prepare(t, Settle(t, s)).store;
    AllWrites(t.m, st, active, |t.m.memoryWrites|);
    assert Captured(t.m, st, Only(active)) == Captured(t.m, st, AllClocks);
  }

  // --------------------------------------------------------------- one domain

  /** The registers and wires of one clock domain, and its memories. */
  datatype Domain = Domain(clock: Signal, signals: set<Signal>, mems: set<Signal>)

  predicate LocalSignal(m: Module, d: Domain, x: Signal) {
    x in d.signals || IsInput(m, x)
  }

  /** The expression reads the domain's own state and the inputs. */
  predicate Local(m: Module, d: Domain, e: Expr) {
    && (forall x | x in ExprDeps(e) :: LocalSignal(m, d, x))
    && (forall y | y in ExprMems(e) :: y in d.mems)
  }

  predicate DomainReg(m: Module, d: Domain, info: SignalInfo)
    requires info.kind.Reg?
  {
    && info.kind.clock == Some(d.clock)
    && (info.kind.reset.Some? ==> LocalSignal(m, d, info.kind.reset.value.signal))
    && (info.kind.next.Some? ==> Local(m, d, info.kind.next.value))
  }

  predicate DomainWrite(m: Module, d: Domain, w: MemoryWrite) {
    w.clock == d.clock && Local(m, d, w.enable) && Local(m, d, w.addr) && Local(m, d, w.data)
  }

  /** The domain is closed: its registers run on its clock, its wires are driven,
      and everything it computes is local. */
  predicate IsDomain(m: Module, d: Domain) {
    && (forall x | x in d.signals ::
          && m.Owns(x)
          && (if m.signals[x.id].kind.Reg? then DomainReg(m, d, m.signals[x.id]) else Assigned(m, x)))
    && (forall a | a in m.assignments && a.dst in d.signals :: Local(m, d, a.expr))
    && (forall w | w in m.memoryWrites && w.mem in d.mems :: DomainWrite(m, d, w))
  }

  /** The domain and the inputs look the same in both states. */
  ghost predicate Same(m: Module, d: Domain, a: Store, b: Store) {
    && (forall x | LocalSignal(m, d, x) :: Get(a.values, x) == Get(b.values, x))
    && (forall y | y in d.mems :: SameMem(a.mems, b.mems, y))
  }

  /** The hypotheses on the design: a flat module the checks accept, with
      asynchronous resets only from input ports. */
  ghost predicate Flat(t: Tree, d: Domain) {
    && t.instances == [] && Sane(t) && AsyncFromInputs(t.m) && Acyclic(Edges(t))
    && IsDomain(t.m, d)
  }

  lemma LocalEval(m: Module, d: Domain, a: Store, b: Store, e: Expr)
    requires Same(m, d, a, b) && Local(m, d, e)
    ensures Eval(m, a, e) == Eval(m, b, e)
  {
    EvalReads(m, a, b, e);
  }

  // -------------------------------------------- settling keeps domains alike

  ghost predicate SameSignals(m: Module, d: Domain, v: Values, w: Values) {
    forall x | LocalSignal(m, d, x) :: Get(v, x) == Get(w, x)
  }

  /** The reset of a domain register is local, so both states assert it or
      neither does. */
  lemma ResetsSame(m: Module, d: Domain, v: Values, w: Values)
    requires IsDomain(m, d) && SameSignals(m, d, v, w)
    ensures SameSignals(m, d, ApplyResets(m, v), ApplyResets(m, w))
  {
    forall x | LocalSignal(m, d, x)
      ensures Get(ApplyResets(m, v), x) == Get(ApplyResets(m, w), x)
    {
      if AsyncReg(m, x) {
        assert m.Handle(x.id) == x;
      } else {
        ResetsFrame(m, v, x);
        ResetsFrame(m, w, x);
      }
    }
  }

  lemma AssignSame(m: Module, d: Domain, ma: Memories, mb: Memories, p: Progress, q: Progress, a: Assignment)
    requires IsDomain(m, d) && a in m.assignments && Drivable(m, a.dst)
    requires Same(m, d, Store(p.values, ma), Store(q.values, mb))
    ensures SameSignals(m, d, AssignOne(m, ma, p, a).values, AssignOne(m, mb, q, a).values)
  {
    if a.dst in d.signals {
      LocalEval(m, d, Store(p.values, ma), Store(q.values, mb), a.expr);
    }
  }

  lemma {:induction false} AssignsSame(m: Module, d: Domain, ma: Memories, mb: Memories,
                                       p: Progress, q: Progress, i: nat)
    requires IsDomain(m, d) && i <= |m.assignments|
    requires forall j | 0 <= j < |m.assignments| :: Drivable(m, m.assignments[j].dst)
    requires Same(m, d, Store(p.values, ma), Store(q.values, mb))
    ensures SameSignals(m, d, AssignFrom(m, ma, p, i).values, AssignFrom(m, mb, q, i).values)
    decreases |m.assignments| - i
  {
    if i < |m.assignments| {
      var a := m.assignments[i];
      AssignSame(m, d, ma, mb, p, q, a);
      AssignsSame(m, d, ma, mb, AssignOne(m, ma, p, a), AssignOne(m, mb, q, a), i + 1);
    }
  }

  /** One round takes equal domains to equal domains, whatever the rest of the
      module holds. */
  lemma PassSame(t: Tree, d: Domain, a: State, b: State)
    requires Flat(t, d) && Fits(t, a) && Fits(t, b) && Same(t.m, d, a.store, b.store)
    ensures Same(t.m, d, Pass(t, a).state.store, Pass(t, b).state.store)
  {
    ResetsSame(t.m, d, a.Values(), b.Values());
    AssignsSame(t.m, d, a.store.mems, b.store.mems,
                Progress(AfterResets(t, a), AfterResets(t, a) != a.Values()),
                Progress(AfterResets(t, b), AfterResets(t, b) != b.Values()), 0);
    ResetsSame(t.m, d, AfterAssigns(t, a).values, AfterAssigns(t, b).values);
    FlatPass(t, a);
    FlatPass(t, b);
  }

  /** Without instances a round is resets, assignments, resets. */
  lemma FlatPass(t: Tree, s: State)
    requires t.instances == [] && Fits(t, s)
    ensures Pass(t, s).state.Values() == ApplyResets(t.m, AfterAssigns(t, s).values)
    ensures AfterOutputs(t, s) == AfterAssigns(t, s) && AfterKids(t, s) == s.kids
  {
    PassSteps(t, s);
  }

  /** Exactly n rounds, changed or not. */
  function Rounds(t: Tree, s: State, n: nat): (r: State)
    requires Fits(t, s)
    ensures Fits(t, r)
    decreases n
  {
    if n == 0 then s else Rounds(t, Pass(t, s).state, n - 1)
  }

  /** A round that reports no change leaves the state as it was. */
  lemma StillPass(t: Tree, s: State)
    requires t.instances == [] && Fits(t, s) && !Pass(t, s).changed
    ensures Pass(t, s).state == s
  {
    FlatPass(t, s);
    PassSteps(t, s);
    AssignFromStill(t.m, s.store.mems, Progress(AfterResets(t, s), AfterResets(t, s) != s.Values()), 0);
  }

  lemma {:induction false} StillRounds(t: Tree, s: State, n: nat)
    requires Fits(t, s) && Pass(t, s).state == s
    ensures Rounds(t, s, n) == s
  {
    if n > 0 {
      StillRounds(t, s, n - 1);
    }
  }

  /** Stopping early is the same as going on. */
  lemma {:induction false} LoopIsRounds(t: Tree, s: State, n: nat)
    requires t.instances == [] && Fits(t, s)
    ensures Loop(t, s, n) == Rounds(t, s, n)
    decreases n
  {
    if n > 0 {
      LoopStep(t, s, n);
      if !Pass(t, s).changed {
        StillPass(t, s);
        StillRounds(t, s, n);
      } else if n > 1 {
        LoopIsRounds(t, Pass(t, s).state, n - 1);
      }
    }
  }

  lemma {:induction false} RoundsSame(t: Tree, d: Domain, a: State, b: State, n: nat)
    requires Flat(t, d) && Fits(t, a) && Fits(t, b) && Same(t.m, d, a.store, b.store)
    ensures Same(t.m, d, Rounds(t, a, n).store, Rounds(t, b, n).store)
    decreases n
  {
    if n > 0 {
      PassSame(t, d, a, b);
      RoundsSame(t, d, Pass(t, a).state, Pass(t, b).state, n - 1);
    }
  }

  /** Settling takes equal domains to equal domains, although the two runs of the
      loop may stop after different numbers of rounds. */
  lemma SettleSame(t: Tree, d: Domain, a: State, b: State)
    requires Flat(t, d) && Fits(t, a) && Fits(t, b) && Same(t.m, d, a.store, b.store)
    ensures Same(t.m, d, Settle(t, a).store, Settle(t, b).store)
    ensures Settled(t, Settle(t, a)) && Settled(t, Settle(t, b))
  {
    LoopIsRounds(t, a, Limit(t));
    LoopIsRounds(t, b, Limit(t));
    RoundsSame(t, d, a, b, Limit(t));
    Ranking.FlatSettleable(t);
    SettleSettles(t, a);
    SettleSettles(t, b);
  }

  // --------------------------------------------------------------- clock edges

  /** An edge changes a local signal only if it is a register of the domain and
      its clock rises. */
  lemma LocalLatched(m: Module, d: Domain, st: Store, edges: ClockEdges, x: Signal)
    requires IsDomain(m, d) && LocalSignal(m, d, x)
    ensures m.Owns(x)
    ensures Get(LatchStore(m, st, edges).values, x)
         == if edges.Rises(d.clock) && m.signals[x.id].kind.Reg? then NextValue(m, st, x.id)
            else Get(st.values, x)
  {
    assert m.Handle(x.id) == x;
  }

  lemma NextSame(m: Module, d: Domain, a: Store, b: Store, x: Signal)
    requires IsDomain(m, d) && Same(m, d, a, b) && x in d.signals && m.signals[x.id].kind.Reg?
    ensures NextValue(m, a, x.id) == NextValue(m, b, x.id)
  {
    var kind := m.signals[x.id].kind;
    if kind.next.Some? {
      LocalEval(m, d, a, b, kind.next.value);
    }
  }

  lemma WriteSame(m: Module, d: Domain, a: Store, b: Store, e: ClockEdges, f: ClockEdges, w: MemoryWrite,
                  ma: Memories, mb: Memories)
    requires Same(m, d, a, b) && DomainWrite(m, d, w) && SameMem(ma, mb, w.mem)
    requires e.Rises(d.clock) && f.Rises(d.clock)
    ensures SameMem(WriteOne(m, a, e, w, ma), WriteOne(m, b, f, w, mb), w.mem)
  {
    LocalEval(m, d, a, b, w.enable);
    LocalEval(m, d, a, b, w.addr);
    LocalEval(m, d, a, b, w.data);
  }

  lemma OtherMemory(m: Module, st: Store, e: ClockEdges, w: MemoryWrite, mems: Memories, y: Signal)
    requires w.mem != y
    ensures SameMem(WriteOne(m, st, e, w, mems), mems, y)
  {
  }

  lemma SameMemTrans(a: Memories, b: Memories, c: Memories, y: Signal)
    requires SameMem(a, b, y) && SameMem(b, c, y)
    ensures SameMem(a, c, y) && SameMem(c, a, y)
  {
  }

  lemma {:induction false} WritesSame(m: Module, d: Domain, a: Store, b: Store, e: ClockEdges, f: ClockEdges,
                                      i: nat, y: Signal)
    requires IsDomain(m, d) && Same(m, d, a, b) && y in d.mems && i <= |m.memoryWrites|
    requires e.Rises(d.clock) && f.Rises(d.clock)
    ensures SameMem(WritesApplied(m, a, e, i), WritesApplied(m, b, f, i), y)
  {
    if i > 0 {
      var w := m.memoryWrites[i - 1];
      var ma, mb := WritesApplied(m, a, e, i - 1), WritesApplied(m, b, f, i - 1);
      WritesSame(m, d, a, b, e, f, i - 1, y);
      if w.mem == y {
        assert DomainWrite(m, d, w);
        WriteSame(m, d, a, b, e, f, w, ma, mb);
      } else {
        OtherMemory(m, a, e, w, ma, y);
        OtherMemory(m, b, f, w, mb, y);
        SameMemTrans(WriteOne(m, a, e, w, ma), ma, mb, y);
        SameMemTrans(WriteOne(m, b, f, w, mb), mb, ma, y);
      }
    }
  }

  lemma {:induction false} WritesIdle(m: Module, d: Domain, st: Store, e: ClockEdges, i: nat, y: Signal)
    requires IsDomain(m, d) && y in d.mems && i <= |m.memoryWrites| && !e.Rises(d.clock)
    ensures SameMem(WritesApplied(m, st, e, i), st.mems, y)
  {
    if i > 0 {
      WritesIdle(m, d, st, e, i - 1, y);
      var w := m.memoryWrites[i - 1];
      assert w.mem == y ==> DomainWrite(m, d, w);
    }
  }

  /** An edge of the domain's clock does the same to equal domains, whichever
      other clocks rise with it. */
  lemma LatchSame(m: Module, d: Domain, a: Store, b: Store, e: ClockEdges, f: ClockEdges)
    requires IsDomain(m, d) && Same(m, d, a, b) && e.Rises(d.clock) && f.Rises(d.clock)
    ensures Same(m, d, LatchStore(m, a, e), LatchStore(m, b, f))
  {
    forall x | LocalSignal(m, d, x)
      ensures Get(LatchStore(m, a, e).values, x) == Get(LatchStore(m, b, f).values, x)
    {
      LocalLatched(m, d, a, e, x);
      LocalLatched(m, d, b, f, x);
      if m.signals[x.id].kind.Reg? {
        NextSame(m, d, a, b, x);
      }
    }
    forall y | y in d.mems
      ensures SameMem(LatchStore(m, a, e).mems, LatchStore(m, b, f).mems, y)
    {
      WritesSame(m, d, a, b, e, f, |m.memoryWrites|, y);
    }
  }

  /** Other clocks leave the domain alone. */
  lemma LatchIdle(m: Module, d: Domain, st: Store, e: ClockEdges)
    requires IsDomain(m, d) && !e.Rises(d.clock)
    ensures Same(m, d, LatchStore(m, st, e), st)
  {
    forall x | LocalSignal(m, d, x)
      ensures Get(LatchStore(m, st, e).values, x) == Get(st.values, x)
    {
      LocalLatched(m, d, st, e, x);
    }
    forall y | y in d.mems
      ensures SameMem(LatchStore(m, st, e).mems, st.mems, y)
    {
      WritesIdle(m, d, st, e, |m.memoryWrites|, y);
    }
  }

  lemma SameTrans(m: Module, d: Domain, a: Store, b: Store, c: Store)
    requires Same(m, d, a, b) && Same(m, d, b, c)
    ensures Same(m, d, a, c)
  {
  }

  // ---------------------------------------------------------------- schedules

  /** What a step is in the plain run of one domain: a `set` stays, and an edge is
      a tick if the domain's clock rises. */
  function Kept(e: Event, clock: Signal): seq<Event> {
    match e
    case SetTo(_, _) => [e]
    case Edge(edges) => if edges.Rises(clock) then [Edge(AllClocks)] else []
  }

  function Project(events: seq<Event>, clock: Signal): seq<Event>
    decreases |events|
  {
    if events == [] then []
    else Project(events[..|events| - 1], clock) + Kept(events[|events| - 1], clock)
  }

  lemma RunLast(t: Tree, s: State, events: seq<Event>, e: Event)
    requires Fits(t, s)
    ensures Run(t, s, events + [e]) == Apply(t, Run(t, s, events), e)
  {
    assert (events + [e])[..|events|] == events;
  }

  /** A state and its counterpart in the projected run. */
  ghost predicate Matched(t: Tree, d: Domain, a: State, b: State)
    requires Fits(t, a) && Fits(t, b)
  {
    Settled(t, a) && Settled(t, b) && Same(t.m, d, a.store, b.store)
  }

  lemma SetMatched(t: Tree, d: Domain, a: State, b: State, x: Signal, value: Word)
    requires Flat(t, d) && Fits(t, a) && Fits(t, b) && IsInput(t.m, x) && Matched(t, d, a, b)
    ensures Matched(t, d, SetSignal(t, a, x, value), SetSignal(t, b, x, value))
  {
    var w := Masked(value, t.m.WidthOf(x));
    SettleSame(t, d, a.WithValues(a.Values()[x := w]), b.WithValues(b.Values()[x := w]));
  }

  /** An edge of the domain's clock. */
  lemma RiseMatched(t: Tree, d: Domain, a: State, b: State, edges: ClockEdges)
    requires Flat(t, d) && Fits(t, a) && Fits(t, b) && Matched(t, d, a, b) && edges.Rises(d.clock)
    ensures Matched(t, d, Tick(t, a, edges), Tick(t, b, AllClocks))
  {
    LatchSame(t.m, d, a.store, b.store, edges, AllClocks);
    TickOfSettled(t, a, edges);
    TickOfSettled(t, b, AllClocks);
    SettleSame(t, d, Advance(t, a, edges), Advance(t, b, AllClocks));
  }

  /** An edge of other clocks: settling after it leads the domain back to where
      the settled state before it was. */
  lemma IdleMatched(t: Tree, d: Domain, a: State, b: State, edges: ClockEdges)
    requires Flat(t, d) && Fits(t, a) && Fits(t, b) && Matched(t, d, a, b) && !edges.Rises(d.clock)
    ensures Matched(t, d, Tick(t, a, edges), b)
  {
    LatchIdle(t.m, d, a.store, edges);
    SameTrans(t.m, d, LatchStore(t.m, a.store, edges), a.store, b.store);
    TickOfSettled(t, a, edges);
    SettleSame(t, d, Advance(t, a, edges), b);
    SettledFixed(t, b);
  }

  /** From construction on, the second run leaves the domain where the first
      does. */
  ghost predicate Follows(t: Tree, d: Domain, events: seq<Event>, p: seq<Event>) {
    Matched(t, d, Run(t, Start(t), events), Run(t, Start(t), p))
  }

  lemma StepFollows(t: Tree, d: Domain, before: seq<Event>, p: seq<Event>, e: Event)
    requires Flat(t, d) && (e.SetTo? ==> IsInput(t.m, e.signal)) && Follows(t, d, before, p)
    ensures Follows(t, d, before + [e], p + Kept(e, d.clock))
  {
    var a, b := Run(t, Start(t), before), Run(t, Start(t), p);
    RunLast(t, Start(t), before, e);
    if Kept(e, d.clock) != [] {
      RunLast(t, Start(t), p, Kept(e, d.clock)[0]);
    } else {
      assert p + Kept(e, d.clock) == p;
    }
    match e
    case SetTo(x, value) => SetMatched(t, d, a, b, x, value);
    case Edge(edges) =>
      if edges.Rises(d.clock) {
        RiseMatched(t, d, a, b, edges);
      } else {
        IdleMatched(t, d, a, b, edges);
      }
  }

  lemma StartFollows(t: Tree, d: Domain)
    requires Flat(t, d)
    ensures Follows(t, d, [], [])
  {
    SettleSame(t, d, InitialState(t), InitialState(t));
  }

  lemma ProjectLast(events: seq<Event>, clock: Signal)
    requires events != []
    ensures Project(events, clock)
         == Project(events[..|events| - 1], clock) + Kept(events[|events| - 1], clock)
    ensures events[..|events| - 1] + [events[|events| - 1]] == events
  {
  }

  lemma ExternalPrefix(t: Tree, events: seq<Event>)
    requires events != [] && External(t, events)
    ensures External(t, events[..|events| - 1])
    ensures var e := events[|events| - 1]; e.SetTo? ==> IsInput(t.m, e.signal)
  {
  }

  /** After any schedule a domain is where the plain run over its own steps
      leaves it. */
  lemma {:induction false} Projection(t: Tree, d: Domain, events: seq<Event>)
    requires Flat(t, d) && External(t, events)
    ensures Follows(t, d, events, Project(events, d.clock))
    decreases |events|
  {
    if events == [] {
      StartFollows(t, d);
    } else {
      var before := events[..|events| - 1];
      ExternalPrefix(t, events);
      Projection(t, d, before);
      StepFollows(t, d, before, Project(before, d.clock), events[|events| - 1]);
      ProjectLast(events, d.clock);
    }
  }
}
