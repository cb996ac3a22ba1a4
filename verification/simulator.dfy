/** The simulator object: it updates its value and memory tables, and those of
    its child simulators, in place.  Every method is proved to compute the
    function of module `Simulation` that describes it. */
module SimulatorObject {
  import opened Words
  import opened Rtl
  import opened Semantics
  import opened Simulation

  /** What one clock edge will write, captured before anything changes. */
  datatype TickState = TickState(
    values: map<Signal, Word>,
    memories: seq<(Signal, Word, Word)>,
    children: seq<TickState>)

  /** The first n captured memory writes, in order. */
  function WriteAll(mems: Memories, writes: seq<(Signal, Word, Word)>, n: nat): Memories
    requires n <= |writes|
  {
    if n == 0 then mems
    else WriteMem(WriteAll(mems, writes, n - 1), writes[n - 1].0, writes[n - 1].1, writes[n - 1].2)
  }

  lemma {:induction false} WriteAllPrefix(mems: Memories, a: seq<(Signal, Word, Word)>, w: (Signal, Word, Word), n: nat)
    requires n <= |a|
    ensures WriteAll(mems, a + [w], n) == WriteAll(mems, a, n)
  {
    if n > 0 {
      WriteAllPrefix(mems, a, w, n - 1);
    }
  }

  lemma WriteAllStep(mems: Memories, a: seq<(Signal, Word, Word)>, w: (Signal, Word, Word))
    ensures WriteAll(mems, a + [w], |a + [w]|) == WriteMem(WriteAll(mems, a, |a|), w.0, w.1, w.2)
  {
    WriteAllPrefix(mems, a, w, |a|);
  }

  /** The captured tick holds what the edge does to state `s`, at every level. */
  predicate Captures(t: Tree, s: State, edges: ClockEdges, tick: TickState)
    requires Fits(t, s)
    decreases t
  {
    && tick.values == Captured(t.m, s.store, edges)
    && WriteAll(s.store.mems, tick.memories, |tick.memories|)
       == WritesApplied(t.m, s.store, edges, |t.m.memoryWrites|)
    && |tick.children| == |t.instances|
    && forall i | 0 <= i < |t.instances| ::
         Captures(t.Child(i), s.kids[i], AllClocks, tick.children[i])
  }

  /** A child brought up to date, and its captured edge. */
  predicate CapturedFrom(t: Tree, before: State, after: State, tick: TickState) {
    && Fits(t, before) && Fits(t, after)
    && after == Prepare(t, before) && Captures(t, after, AllClocks, tick)
  }

  /** The asynchronous writes decided by the first n signals. */
  function AsyncTo(m: Module, values: Values, n: nat): map<Signal, Word>
    requires n <= |m.signals|
  {
    if n == 0 then map[]
    else
      var info := m.signals[n - 1];
      if HasAsync(info) && Asserted(values, info.kind.reset.value) then
        AsyncTo(m, values, n - 1)[m.Handle(n - 1) := Encode(info.kind.reset.value.value, info.ty.width)]
      else AsyncTo(m, values, n - 1)
  }

  lemma {:induction false} AsyncToHolds(m: Module, values: Values, n: nat, x: Signal)
    requires n <= |m.signals|
    ensures x in AsyncTo(m, values, n) <==> x in AsyncWrites(m, values) && x.id < n
    ensures x in AsyncTo(m, values, n) ==> AsyncTo(m, values, n)[x] == AsyncWrites(m, values)[x]
  {
    if n > 0 {
      AsyncToHolds(m, values, n - 1, x);
    }
  }

  lemma AsyncToAll(m: Module, values: Values)
    ensures AsyncTo(m, values, |m.signals|) == AsyncWrites(m, values)
  {
    forall x
      ensures x in AsyncTo(m, values, |m.signals|) <==> x in AsyncWrites(m, values)
      ensures x in AsyncTo(m, values, |m.signals|) ==>
                AsyncTo(m, values, |m.signals|)[x] == AsyncWrites(m, values)[x]
    {
      AsyncToHolds(m, values, |m.signals|, x);
    }
  }

  /** The registers captured from the first n signals. */
  function CapturedTo(m: Module, st: Store, edges: ClockEdges, n: nat): map<Signal, Word>
    requires n <= |m.signals|
  {
    if n == 0 then map[]
    else if m.signals[n - 1].kind.Reg? && edges.Register(m.signals[n - 1]) then
      CapturedTo(m, st, edges, n - 1)[m.Handle(n - 1) := NextValue(m, st, n - 1)]
    else CapturedTo(m, st, edges, n - 1)
  }

  lemma {:induction false} CapturedToHolds(m: Module, st: Store, edges: ClockEdges, n: nat, x: Signal)
    requires n <= |m.signals|
    ensures x in CapturedTo(m, st, edges, n) <==> x in Captured(m, st, edges) && x.id < n
    ensures x in CapturedTo(m, st, edges, n) ==>
              CapturedTo(m, st, edges, n)[x] == Captured(m, st, edges)[x]
  {
    if n > 0 {
      CapturedToHolds(m, st, edges, n - 1, x);
      CapturedAt(m, st, edges, n - 1);
    }
  }

  lemma CapturedAt(m: Module, st: Store, edges: ClockEdges, i: nat)
    requires i < |m.signals|
    ensures m.Handle(i) in Captured(m, st, edges)
            <==> m.signals[i].kind.Reg? && edges.Register(m.signals[i])
    ensures m.Handle(i) in Captured(m, st, edges) ==>
              Captured(m, st, edges)[m.Handle(i)] == NextValue(m, st, i)
    ensures forall x | x in Captured(m, st, edges) && x.id == i :: x == m.Handle(i)
  {
  }

  lemma CapturedToAll(m: Module, st: Store, edges: ClockEdges)
    ensures CapturedTo(m, st, edges, |m.signals|) == Captured(m, st, edges)
  {
    forall x
      ensures x in CapturedTo(m, st, edges, |m.signals|) <==> x in Captured(m, st, edges)
      ensures x in CapturedTo(m, st, edges, |m.signals|) ==>
                CapturedTo(m, st, edges, |m.signals|)[x] == Captured(m, st, edges)[x]
    {
      CapturedToHolds(m, st, edges, |m.signals|, x);
    }
  }

  class Simulator {
    const tree: Tree
    const children: seq<Simulator>
    ghost const repr: set<Simulator>
    var values: Values
    var memories: Memories

    /** The children mirror the instances and own disjoint objects. */
    ghost predicate Valid()
      decreases tree
    {
      && this in repr
      && |children| == |tree.instances|
      && (forall i | 0 <= i < |children| ::
            && children[i].tree == tree.Child(i)
            && children[i].repr <= repr
            && this !in children[i].repr
            && children[i].Valid())
      && (forall i, j | 0 <= i < j < |children| :: children[i].repr !! children[j].repr)
    }

    /** Objects of different children are different. */
    lemma Apart()
      requires Valid()
      ensures forall i, k | 0 <= i < |children| && 0 <= k < |children| && i != k ::
                children[i].repr !! children[k].repr
      ensures forall i | 0 <= i < |children| ::
                children[i] in children[i].repr && this !in children[i].repr
    {
    }

    /** The abstract state. */
    ghost function State(): (s: State)
      requires Valid()
      reads repr
      ensures Fits(tree, s)
      decreases tree
    {
      Simulation.State(Store(values, memories), Kids(|children|))
    }

    ghost function Kids(n: nat): (kids: seq<State>)
      requires Valid() && n <= |children|
      reads repr
      ensures |kids| == n
      ensures forall i | 0 <= i < n ::
                Shaped(tree.Child(i), kids[i].kids) && kids[i] == children[i].State()
      decreases tree, 0, n
    {
      if n == 0 then [] else Kids(n - 1) + [children[n - 1].State()]
    }

    /** `from_module`, children first. */
    constructor (t: Tree)
      ensures Valid() && fresh(repr) && tree == t && State() == InitialState(t)
      decreases t, 1
    {
      var kids;
      ghost var owned;
      kids, owned := NewChildren(t);
      tree, children, repr := t, kids, {this} + owned;
      values, memories := InitialStore(t.m).values, InitialStore(t.m).mems;
    }

    static method NewChildren(t: Tree) returns (kids: seq<Simulator>, ghost owned: set<Simulator>)
      ensures fresh(owned) && |kids| == |t.instances|
      ensures forall k | 0 <= k < |kids| ::
                && kids[k].Valid() && kids[k].tree == t.Child(k) && kids[k].repr <= owned
                && kids[k].State() == InitialState(t.Child(k))
      ensures forall j, k | 0 <= j < k < |kids| :: kids[j].repr !! kids[k].repr
      decreases t, 0
    {
      kids, owned := [], {};
      var i := 0;
      while i < |t.instances|
        invariant i == |kids| <= |t.instances| && fresh(owned)
        invariant forall k | 0 <= k < i ::
                    && kids[k].Valid() && kids[k].tree == t.Child(k) && kids[k].repr <= owned
                    && kids[k].State() == InitialState(t.Child(k))
        invariant forall j, k | 0 <= j < k < i :: kids[j].repr !! kids[k].repr
      {
        var kid := new Simulator(t.Child(i));
        owned := owned + kid.repr;
        kids := kids + [kid];
        i := i + 1;
      }
    }

    /** `Simulator::new`: construct, then settle. */
    static method New(t: Tree) returns (sim: Simulator)
      ensures sim.Valid() && fresh(sim.repr) && sim.tree == t
      ensures sim.State() == Settle(t, InitialState(t))
    {
      sim := new Simulator(t);
      sim.EvalCombinational();
    }

    /** `apply_async_resets`: decide all writes first, then insert them. */
    method ApplyAsyncResets() returns (changed: bool)
      requires Valid()
      modifies this`values
      ensures values == ApplyResets(tree.m, old(values))
      ensures changed <==> values != old(values)
      ensures Kids(|children|) == old(Kids(|children|))
    {
      var writes: map<Signal, Word> := map[];
      for i := 0 to |tree.m.signals|
        invariant writes == AsyncTo(tree.m, values, i)
      {
        var info := tree.m.signals[i];
        if HasAsync(info) && Asserted(values, info.kind.reset.value) {
          writes := writes[tree.m.Handle(i) := Encode(info.kind.reset.value.value, info.ty.width)];
        }
      }
      AsyncToAll(tree.m, values);
      changed := values + writes != values;
      values := values + writes;
      KidsUnchanged();
    }

    /** Changing only this object leaves the children's states alone. */
    twostate lemma KidsUnchanged()
      requires Valid()
      requires forall o: Simulator | o in repr && o != this :: unchanged(o)
      ensures Kids(|children|) == old(Kids(|children|))
    {
      forall k | 0 <= k < |children|
        ensures children[k].State() == old(children[k].State())
      {
      }
    }

    /** The assignments of one round, in place and in order. */
    method RunAssignments(before: bool) returns (changed: bool)
      requires Valid()
      modifies this`values
      ensures Progress(values, changed)
           == AssignFrom(tree.m, memories, Progress(old(values), before), 0)
      ensures Kids(|children|) == old(Kids(|children|))
    {
      changed := before;
      for i := 0 to |tree.m.assignments|
        invariant AssignFrom(tree.m, memories, Progress(values, changed), i)
               == AssignFrom(tree.m, memories, Progress(old(values), before), 0)
      {
        var a := tree.m.assignments[i];
        if tree.m.Owns(a.dst) {
          var value := Masked(Eval(tree.m, Store(values, memories), a.expr), tree.m.WidthOf(a.dst));
          if a.dst !in values || values[a.dst] != value {
            changed := true;
          }
          values := values[a.dst := value];
        }
      }
      KidsUnchanged();
    }

    /** `drive_child_inputs` for one child. */
    static method DriveChild(child: Simulator, inst: Instance, parent: Values)
      requires child.Valid()
      modifies child`values
      ensures child.State() == DriveKid(inst, parent, old(child.State()))
    {
      ghost var kid := child.State();
      for j := 0 to |inst.inputs|
        invariant child.values == Drive(inst, parent, kid.Values(), j)
      {
        var c := inst.inputs[j];
        var value := Masked(Get(parent, c.parent), PortWidth(inst.child.m, c.port));
        child.values := child.values[c.port := value];
      }
      child.KidsUnchanged();
    }

    /** `drive_child_inputs`, from one snapshot of the parent's values. */
    method DriveChildInputs()
      requires Valid()
      modifies repr
      ensures values == old(values) && memories == old(memories)
      ensures forall i | 0 <= i < |children| ::
                children[i].State() == DriveKid(tree.instances[i], values, old(children[i].State()))
    {
      Apart();
      for i := 0 to |children|
        invariant values == old(values) && memories == old(memories)
        invariant forall k | 0 <= k < i ::
                    children[k].State() == DriveKid(tree.instances[k], values, old(children[k].State()))
        invariant forall k | i <= k < |children| :: children[k].State() == old(children[k].State())
      {
        DriveChild(children[i], tree.instances[i], values);
      }
    }

    /** Drive and settle every child, as `eval_instances` and `capture_tick` do. */
    method SettleChildren()
      requires Valid()
      modifies repr
      ensures values == old(values) && memories == old(memories)
      ensures Kids(|children|) == SettleKids(tree, values, old(Kids(|children|)))
      decreases tree, 0
    {
      Apart();
      DriveChildInputs();
      for i := 0 to |children|
        invariant values == old(values) && memories == old(memories)
        invariant forall k | 0 <= k < i ::
                    children[k].State()
                    == Settle(tree.Child(k), DriveKid(tree.instances[k], values, old(children[k].State())))
        invariant forall k | i <= k < |children| ::
                    children[k].State() == DriveKid(tree.instances[k], values, old(children[k].State()))
      {
        children[i].EvalCombinational();
      }
    }

    /** The output writes of `eval_instances`. */
    method CollectChildOutputs(before: bool) returns (changed: bool)
      requires Valid()
      modifies this`values
      ensures Kids(|children|) == old(Kids(|children|))
      ensures Progress(values, changed)
           == CollectOutputs(tree, old(Kids(|children|)), Progress(old(values), before), |children|)
    {
      changed := before;
      ghost var kids, p := Kids(|children|), Progress(values, before);
      var i := 0;
      while i < |children|
        invariant i <= |children| && Kids(|children|) == kids
        invariant Progress(values, changed) == CollectOutputs(tree, kids, p, i)
      {
        changed := CopyOutputs(i, kids, changed);
        i := i + 1;
      }
    }

    /** The output writes of one child. */
    method CopyOutputs(i: nat, ghost kids: seq<State>, before: bool) returns (changed: bool)
      requires Valid() && i < |children| && Kids(|children|) == kids
      modifies this`values
      ensures Progress(values, changed)
           == OutputsOf(tree.instances[i], kids[i], Progress(old(values), before),
                        |tree.instances[i].outputs|)
      ensures Kids(|children|) == kids
    {
      changed := before;
      var inst, child := tree.instances[i], children[i];
      ghost var kid := child.State();
      for j := 0 to |inst.outputs|
        invariant Progress(values, changed) == OutputsOf(inst, kid, Progress(old(values), before), j)
        invariant child.values == kid.Values()
      {
        var c := inst.outputs[j];
        var value := Masked(Get(child.values, c.port), PortWidth(inst.child.m, c.port));
        if c.parent !in values || values[c.parent] != value {
          changed := true;
        }
        values := values[c.parent := value];
      }
      KidsUnchanged();
    }

    /** One round of `eval_combinational`. */
    method RunRound() returns (changed: bool)
      requires Valid()
      modifies repr
      ensures memories == old(memories)
      ensures Round(State(), changed) == Pass(tree, old(State()))
      decreases tree, 1
    {
      changed := ApplyAsyncResets();
      changed := RunAssignments(changed);
      SettleChildren();
      changed := CollectChildOutputs(changed);
      var again := ApplyAsyncResets();
      changed := changed || again;
    }

    /** `eval_combinational`: bounded rounds, stopping after a quiet one. */
    method EvalCombinational()
      requires Valid()
      modifies repr
      ensures memories == old(memories)
      ensures State() == Settle(tree, old(State()))
      decreases tree, 2
    {
      ghost var settled := Settle(tree, State());
      var left := Limit(tree);
      while left > 0
        invariant memories == old(memories) && Loop(tree, State(), left) == settled
      {
        LoopStep(tree, State(), left);
        var changed := RunRound();
        left := left - 1;
        if !changed {
          return;
        }
      }
    }

    /** `Simulator::set` */
    method Set(signal: Signal, value: Word)
      requires Valid()
      modifies repr
      ensures State() == SetSignal(tree, old(State()), signal, value)
    {
      var width := if tree.m.Owns(signal) then tree.m.WidthOf(signal) else BITS;
      values := values[signal := Masked(value, width)];
      KidsUnchanged();
      EvalCombinational();
    }

    /** `capture_tick` and `capture_tick_clocked`: read everything, write
        nothing but the children's settled wires. */
    method CaptureTick(edges: ClockEdges) returns (tick: TickState)
      requires Valid()
      modifies repr
      ensures State() == Prepare(tree, old(State()))
      ensures Captures(tree, State(), edges, tick)
      decreases tree, 2
    {
      SettleChildren();
      var regs := CaptureRegisters(edges);
      var writes := CaptureWrites(edges);
      ghost var kids := Kids(|children|);
      var ticks := CaptureChildren();
      tick := TickState(regs, writes, ticks);
      assert State().kids == Prepare(tree, old(State())).kids by {
        forall k | 0 <= k < |children|
          ensures State().kids[k] == Prepare(tree.Child(k), kids[k])
        {
        }
      }
    }

    /** The first n children are captured and the others as they were. */
    ghost predicate CapturedChildren(kids: seq<State>, ticks: seq<TickState>, n: nat)
      requires Valid() && n <= |ticks| && n <= |children| == |kids|
      reads this, repr
    {
      && (forall k | 0 <= k < n :: CapturedFrom(tree.Child(k), kids[k], children[k].State(), ticks[k]))
      && (forall k | n <= k < |children| :: children[k].State() == kids[k])
    }

    method CaptureChildren() returns (ticks: seq<TickState>)
      requires Valid()
      modifies repr
      ensures values == old(values) && memories == old(memories)
      ensures |ticks| == |children|
      ensures forall k | 0 <= k < |children| ::
                CapturedFrom(tree.Child(k), old(children[k].State()), children[k].State(), ticks[k])
      decreases tree, 1
    {
      Apart();
      ticks := [];
      ghost var kids := Kids(|children|);
      var i := 0;
      while i < |children|
        invariant i == |ticks| <= |children|
        invariant values == old(values) && memories == old(memories)
        invariant CapturedChildren(kids, ticks, i)
      {
        var t := CaptureChild(i);
        ticks := ticks + [t];
        i := i + 1;
      }
    }

    method CaptureChild(i: nat) returns (tick: TickState)
      requires Valid() && i < |children|
      modifies children[i].repr
      ensures Valid() && values == old(values) && memories == old(memories)
      ensures CapturedFrom(tree.Child(i), old(children[i].State()), children[i].State(), tick)
      ensures forall k | 0 <= k < |children| && k != i ::
                children[k].State() == old(children[k].State())
      decreases tree, 0
    {
      Apart();
      tick := children[i].CaptureTick(AllClocks);
    }

    method CaptureRegisters(edges: ClockEdges) returns (regs: map<Signal, Word>)
      requires Valid()
      ensures regs == Captured(tree.m, Store(values, memories), edges)
    {
      regs := map[];
      var st := Store(values, memories);
      for i := 0 to |tree.m.signals|
        invariant regs == CapturedTo(tree.m, st, edges, i)
      {
        var info := tree.m.signals[i];
        if info.kind.Reg? && edges.Register(info) {
          regs := regs[tree.m.Handle(i) := NextValue(tree.m, st, i)];
        }
      }
      CapturedToAll(tree.m, st, edges);
    }

    method CaptureWrites(edges: ClockEdges) returns (writes: seq<(Signal, Word, Word)>)
      requires Valid()
      ensures WriteAll(memories, writes, |writes|)
           == WritesApplied(tree.m, Store(values, memories), edges, |tree.m.memoryWrites|)
    {
      writes := [];
      var st := Store(values, memories);
      var i := 0;
      while i < |tree.m.memoryWrites|
        invariant i <= |tree.m.memoryWrites|
        invariant WriteAll(memories, writes, |writes|) == WritesApplied(tree.m, st, edges, i)
      {
        var w := tree.m.memoryWrites[i];
        if edges.Write(w) && tree.m.Owns(w.mem) && Eval(tree.m, st, w.enable) != 0 {
          var entry := (w.mem, Eval(tree.m, st, w.addr),
                        Masked(Eval(tree.m, st, w.data), tree.m.WidthOf(w.mem)));
          WriteAllStep(memories, writes, entry);
          writes := writes + [entry];
        }
        i := i + 1;
      }
    }

    /** `apply_tick` */
    method ApplyTick(tick: TickState, ghost edges: ClockEdges)
      requires Valid() && Captures(tree, State(), edges, tick)
      modifies repr
      ensures State() == Advance(tree, old(State()), edges)
      decreases tree, 1
    {
      ghost var kids := Kids(|children|);
      ApplyWrites(tick.values, tick.memories);
      assert Kids(|children|) == kids;
      ApplyChildren(tick.children);
      assert State().kids == Advance(tree, old(State()), edges).kids by {
        forall k | 0 <= k < |children|
          ensures State().kids[k] == Advance(tree.Child(k), kids[k], AllClocks)
        {
        }
      }
    }

    method ApplyWrites(regs: map<Signal, Word>, writes: seq<(Signal, Word, Word)>)
      requires Valid()
      modifies this
      ensures values == old(values) + regs
      ensures memories == WriteAll(old(memories), writes, |writes|)
      ensures Kids(|children|) == old(Kids(|children|))
    {
      values := values + regs;
      for i := 0 to |writes|
        invariant values == old(values) + regs
        invariant memories == WriteAll(old(memories), writes, i)
      {
        var (mem, addr, data) := writes[i];
        memories := WriteMem(memories, mem, addr, data);
      }
      KidsUnchanged();
    }

    method ApplyChildren(ticks: seq<TickState>)
      requires Valid() && |ticks| == |children|
      requires forall k | 0 <= k < |children| ::
                 Captures(tree.Child(k), children[k].State(), AllClocks, ticks[k])
      modifies repr
      ensures values == old(values) && memories == old(memories)
      ensures forall k | 0 <= k < |children| ::
                children[k].State() == Advance(tree.Child(k), old(children[k].State()), AllClocks)
      decreases tree, 0
    {
      Apart();
      var i := 0;
      while i < |children|
        invariant i <= |children|
        invariant values == old(values) && memories == old(memories)
        invariant forall k | 0 <= k < i ::
                    children[k].State() == Advance(tree.Child(k), old(children[k].State()), AllClocks)
        invariant forall k | i <= k < |children| ::
                    children[k].State() == old(children[k].State())
      {
        children[i].ApplyTick(ticks[i], AllClocks);
        i := i + 1;
      }
    }

    /** `tick_checked` (every clock) and `tick_clocked` (an explicit set). */
    method Tick(edges: ClockEdges)
      requires Valid()
      modifies repr
      ensures State() == Simulation.Tick(tree, old(State()), edges)
    {
      EvalCombinational();
      var tick := CaptureTick(edges);
      ApplyTick(tick, edges);
      EvalCombinational();
    }
  }
}
