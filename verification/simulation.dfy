/** The scalar simulator as functions on an elaborated design.

    A design is elaborated into a tree of modules; ports are identified by the
    child's signal handle.  The functions follow the simulator statement by
    statement (`Pass` is one round of `eval_combinational`), and the class
    `Simulator` is proved to compute exactly them. */
module Simulation {
  import opened Words
  import opened Rtl
  import opened Semantics

  /** One port connection of an instance. */
  datatype Conn = Conn(port: Signal, parent: Signal)

  datatype Instance = Instance(child: Tree, inputs: seq<Conn>, outputs: seq<Conn>)

  datatype Tree = Tree(m: Module, instances: seq<Instance>)
  {
    function Child(i: nat): Tree
      requires i < |instances|
    {
      instances[i].child
    }
  }

  /** The values of a simulator and of its children. */
  datatype State = State(store: Store, kids: seq<State>)
  {
    function Values(): Values { store.values }

    function WithValues(values: Values): State {
      State(Store(values, store.mems), kids)
    }
  }

  /** The state has the shape of the design. */
  predicate Fits(t: Tree, s: State) {
    Shaped(t, s.kids)
  }

  predicate Shaped(t: Tree, kids: seq<State>)
    decreases t
  {
    && |kids| == |t.instances|
    && forall i | 0 <= i < |t.instances| :: Shaped(t.Child(i), kids[i].kids)
  }

  // ---------------------------------------------------------- construction

  /** The encoding of the first initial value given for a register, or 0. */
  function FirstInitial(initials: seq<InitialRegister>, x: Signal, width: nat): (w: Word)
    ensures w < Pow2(width)
  {
    if initials == [] then Encode(0, width)
    else if initials[0].reg == x then Encode(initials[0].value, width)
    else FirstInitial(initials[1..], x, width)
  }

  function Put(words: seq<Word>, a: nat, data: Word): seq<Word>
    requires a < |words|
  {
    words[a := data]
  }

  /** A memory of zeros after the first i initial words. */
  function InitialWords(m: Module, mem: Signal, width: nat, depth: nat, i: nat): (words: seq<Word>)
    requires i <= |m.initialWords|
    ensures |words| == depth
  {
    if i == 0 then seq(depth, _ => Encode(0, width))
    else
      var words := InitialWords(m, mem, width, depth, i - 1);
      var w := m.initialWords[i - 1];
      if w.mem == mem && w.addr < depth then Put(words, w.addr, Encode(w.value, width)) else words
  }

  function InitialStore(m: Module): Store {
    Store(
      map i | 0 <= i < |m.signals|
        :: m.Handle(i) := FirstInitial(m.initialRegisters, m.Handle(i), m.signals[i].ty.width),
      map i | 0 <= i < |m.signals| && m.signals[i].kind.Mem?
        :: m.Handle(i) := InitialWords(m, m.Handle(i), m.signals[i].ty.width,
                                       m.signals[i].kind.depth, |m.initialWords|))
  }

  /** `from_module` with no overrides. */
  function InitialState(t: Tree): (s: State)
    ensures Fits(t, s)
    decreases t
  {
    State(InitialStore(t.m),
          seq(|t.instances|, i requires 0 <= i < |t.instances| => InitialState(t.Child(i))))
  }

  // ---------------------------------------------------------------- resets

  /** `reset_asserted` */
  predicate Asserted(values: Values, r: Reset) {
    match r.polarity
    case ActiveHigh => Get(values, r.signal) != 0
    case ActiveLow => Get(values, r.signal) == 0
  }

  predicate HasAsync(info: SignalInfo) {
    info.kind.Reg? && info.kind.reset.Some? && info.kind.reset.value.kind.Async?
  }

  /** The registers an asserted asynchronous reset overwrites, and with what. */
  function AsyncWrites(m: Module, values: Values): map<Signal, Word> {
    map i | 0 <= i < |m.signals| && HasAsync(m.signals[i])
            && Asserted(values, m.signals[i].kind.reset.value)
      :: m.Handle(i) := Encode(m.signals[i].kind.reset.value.value, m.signals[i].ty.width)
  }

  /** `apply_async_resets` */
  function ApplyResets(m: Module, values: Values): Values {
    values + AsyncWrites(m, values)
  }

  // ----------------------------------------------------------- assignments

  /** A value map and whether an insertion changed it so far. */
  datatype Progress = Progress(values: Values, changed: bool)

  /** `values.insert(s, value) != Some(value)` */
  function Insert(p: Progress, s: Signal, value: Word): Progress {
    Progress(p.values[s := value], p.changed || s !in p.values || p.values[s] != value)
  }

  function AssignOne(m: Module, mems: Memories, p: Progress, a: Assignment): Progress {
    if m.Owns(a.dst) then
      Insert(p, a.dst, Masked(Eval(m, Store(p.values, mems), a.expr), m.WidthOf(a.dst)))
    else p
  }

  /** Assignments from the i-th on, in place. */
  function AssignFrom(m: Module, mems: Memories, p: Progress, i: nat): Progress
    requires i <= |m.assignments|
    decreases |m.assignments| - i
  {
    if i == |m.assignments| then p
    else AssignFrom(m, mems, AssignOne(m, mems, p, m.assignments[i]), i + 1)
  }

  // ------------------------------------------------------------- instances

  function PortWidth(m: Module, port: Signal): nat {
    if m.Owns(port) then m.WidthOf(port) else 0
  }

  /** `drive_child_inputs` for one child. */
  function Drive(inst: Instance, values: Values, kid: Values, i: nat): Values
    requires i <= |inst.inputs|
  {
    if i == 0 then kid
    else
      var c := inst.inputs[i - 1];
      Drive(inst, values, kid, i - 1)
        [c.port := Masked(Get(values, c.parent), PortWidth(inst.child.m, c.port))]
  }

  function DriveKid(inst: Instance, values: Values, kid: State): (r: State)
    ensures r.kids == kid.kids
  {
    kid.WithValues(Drive(inst, values, kid.Values(), |inst.inputs|))
  }

  /** The value an output port hands to its parent. */
  function PortValue(inst: Instance, kid: State, c: Conn): Word {
    Masked(Get(kid.Values(), c.port), PortWidth(inst.child.m, c.port))
  }

  function OutputsOf(inst: Instance, kid: State, p: Progress, o: nat): Progress
    requires o <= |inst.outputs|
  {
    if o == 0 then p
    else
      var c := inst.outputs[o - 1];
      Insert(OutputsOf(inst, kid, p, o - 1), c.parent, PortValue(inst, kid, c))
  }

  /** The output writes of the first i children. */
  function CollectOutputs(t: Tree, kids: seq<State>, p: Progress, i: nat): Progress
    requires i <= |t.instances| == |kids|
  {
    if i == 0 then p
    else
      OutputsOf(t.instances[i - 1], kids[i - 1], CollectOutputs(t, kids, p, i - 1),
                |t.instances[i - 1].outputs|)
  }

  // -------------------------------------------------------------- settling

  /** The bound of `eval_combinational`. */
  function Limit(t: Tree): nat {
    if |t.m.assignments| + |t.instances| > 1 then |t.m.assignments| + |t.instances| else 1
  }

  /** All children driven from `values` and settled. */
  function SettleKids(t: Tree, values: Values, kids: seq<State>): (r: seq<State>)
    requires Shaped(t, kids)
    ensures Shaped(t, r)
    decreases t, 0
  {
    seq(|kids|, i requires 0 <= i < |kids| =>
      Settle(t.Child(i), DriveKid(t.instances[i], values, kids[i])))
  }

  datatype Round = Round(state: State, changed: bool)

  // The steps of one round: resets, assignments, children, their outputs.

  function AfterResets(t: Tree, s: State): Values {
    ApplyResets(t.m, s.Values())
  }

  function AfterAssigns(t: Tree, s: State): Progress {
    AssignFrom(t.m, s.store.mems,
               Progress(AfterResets(t, s), AfterResets(t, s) != s.Values()), 0)
  }

  function AfterKids(t: Tree, s: State): (kids: seq<State>)
    requires Fits(t, s)
    ensures Shaped(t, kids)
    decreases t, 1
  {
    SettleKids(t, AfterAssigns(t, s).values, s.kids)
  }

  function AfterOutputs(t: Tree, s: State): Progress
    requires Fits(t, s)
    decreases t, 2
  {
    CollectOutputs(t, AfterKids(t, s), AfterAssigns(t, s), |s.kids|)
  }

  /** One round of the settling loop. */
  function Pass(t: Tree, s: State): (r: Round)
    requires Fits(t, s)
    ensures Fits(t, r.state) && r.state.store.mems == s.store.mems
    decreases t, 3
  {
    var after := AfterOutputs(t, s);
    var v := ApplyResets(t.m, after.values);
    Round(State(Store(v, s.store.mems), AfterKids(t, s)), after.changed || v != after.values)
  }

  function Loop(t: Tree, s: State, n: nat): (r: State)
    requires Fits(t, s)
    ensures Fits(t, r) && r.store.mems == s.store.mems
    decreases t, 4, n
  {
    if n == 0 then s
    else
      var round := Pass(t, s);
      if round.changed then Loop(t, round.state, n - 1) else round.state
  }

  lemma PassSteps(t: Tree, s: State)
    requires Fits(t, s)
    ensures Pass(t, s).state.kids == AfterKids(t, s)
    ensures Pass(t, s).state.Values() == ApplyResets(t.m, AfterOutputs(t, s).values)
    ensures Pass(t, s).changed <==>
              AfterOutputs(t, s).changed || Pass(t, s).state.Values() != AfterOutputs(t, s).values
  {
  }

  lemma LoopStep(t: Tree, s: State, n: nat)
    requires Fits(t, s) && n > 0
    ensures Loop(t, s, n)
         == if Pass(t, s).changed && n > 1 then Loop(t, Pass(t, s).state, n - 1) else Pass(t, s).state
  {
  }

  /** `eval_combinational` */
  function Settle(t: Tree, s: State): (r: State)
    requires Fits(t, s)
    ensures Fits(t, r) && r.store.mems == s.store.mems
    decreases t, 5
  {
    Loop(t, s, Limit(t))
  }

  /** `Simulator::set` */
  function SetSignal(t: Tree, s: State, signal: Signal, value: Word): State
    requires Fits(t, s)
  {
    var width := if t.m.Owns(signal) then t.m.WidthOf(signal) else BITS;
    Settle(t, s.WithValues(s.Values()[signal := Masked(value, width)]))
  }

  // -------------------------------------------------------------- clocking

  /** The next value of one register. */
  function NextValue(m: Module, st: Store, i: nat): Word
    requires i < |m.signals| && m.signals[i].kind.Reg?
  {
    var info := m.signals[i];
    var raw: Word :=
      if info.kind.reset.Some? && Asserted(st.values, info.kind.reset.value)
      then Encode(info.kind.reset.value.value, info.ty.width)
      else if info.kind.next.Some? then Eval(m, st, info.kind.next.value)
      else 0;
    Masked(raw, info.ty.width)
  }

  /** The rising edges of a step: every clock, or an explicit set. */
  datatype ClockEdges = AllClocks | Only(active: set<Signal>)
  {
    predicate Rises(clock: Signal) {
      AllClocks? || clock in active
    }

    predicate Register(info: SignalInfo)
      requires info.kind.Reg?
    {
      info.kind.clock.None? || Rises(info.kind.clock.value)
    }

    predicate Write(w: MemoryWrite) {
      Rises(w.clock)
    }
  }

  /** The captured registers of `capture_tick` / `capture_tick_clocked`. */
  function Captured(m: Module, st: Store, edges: ClockEdges): map<Signal, Word> {
    map i | 0 <= i < |m.signals| && m.signals[i].kind.Reg? && edges.Register(m.signals[i])
      :: m.Handle(i) := NextValue(m, st, i)
  }

  /** One enabled memory write lands if its address is inside the memory. */
  function WriteMem(mems: Memories, mem: Signal, addr: Word, data: Word): Memories {
    var a := Masked(addr, 64);
    if mem in mems && a < |mems[mem]| then mems[mem := Put(mems[mem], a, data)] else mems
  }

  /** One memory write of an edge, evaluated on the store before it. */
  function WriteOne(m: Module, st: Store, edges: ClockEdges, w: MemoryWrite, mems: Memories): Memories {
    if edges.Write(w) && m.Owns(w.mem) && Eval(m, st, w.enable) != 0 then
      WriteMem(mems, w.mem, Eval(m, st, w.addr), Masked(Eval(m, st, w.data), m.WidthOf(w.mem)))
    else mems
  }

  /** The first i memory writes, all evaluated on the store before the edge. */
  function WritesApplied(m: Module, st: Store, edges: ClockEdges, i: nat): Memories
    requires i <= |m.memoryWrites|
  {
    if i == 0 then st.mems
    else WriteOne(m, st, edges, m.memoryWrites[i - 1], WritesApplied(m, st, edges, i - 1))
  }

  /** Registers and memories after the edge; wires keep their old values. */
  function LatchStore(m: Module, st: Store, edges: ClockEdges): Store {
    Store(st.values + Captured(m, st, edges), WritesApplied(m, st, edges, |m.memoryWrites|))
  }

  /** `capture_tick` first brings the children of every level up to date. */
  function Prepare(t: Tree, s: State): (r: State)
    requires Fits(t, s)
    ensures Fits(t, r) && r.store == s.store
    decreases t
  {
    var kids := SettleKids(t, s.Values(), s.kids);
    State(s.store, seq(|kids|, i requires 0 <= i < |kids| => Prepare(t.Child(i), kids[i])))
  }

  /** The clock edge itself, at every level at once.  Children always advance on
      every clock. */
  function Advance(t: Tree, s: State, edges: ClockEdges): (r: State)
    requires Fits(t, s)
    ensures Fits(t, r)
    decreases t
  {
    State(LatchStore(t.m, s.store, edges),
          seq(|s.kids|, i requires 0 <= i < |s.kids| => Advance(t.Child(i), s.kids[i], AllClocks)))
  }

  /** `tick_checked` and `tick_clocked`, without assertions and cover points.

      Before it captures the edge, the source also drives and settles the
      children once for its cover points and once for its assertions.  On a
      settled design that changes nothing, so there this is the whole tick;
      on a design that has not settled the two may differ. */
  function Tick(t: Tree, s: State, edges: ClockEdges): (r: State)
    requires Fits(t, s)
    ensures Fits(t, r)
  {
    Settle(t, Advance(t, Prepare(t, Settle(t, s)), edges))
  }
}
