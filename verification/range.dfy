/** Runs of the simulator, and the range invariant: from construction on,
    whatever is set and whichever clocks tick, every signal and memory word at
    every level fits its declared width. */
module Range {
  import opened Words
  import opened Rtl
  import opened Semantics
  import opened Simulation
  import opened Depends

  /** One call on the simulator. */
  datatype Event = SetTo(signal: Signal, value: Word) | Edge(edges: ClockEdges)

  function Apply(t: Tree, s: State, e: Event): (r: State)
    requires Fits(t, s)
    ensures Fits(t, r)
  {
    match e
    case SetTo(signal, value) => SetSignal(t, s, signal, value)
    case Edge(edges) => Tick(t, s, edges)
  }

  /** The state after a sequence of calls. */
  function Run(t: Tree, s: State, events: seq<Event>): (r: State)
    requires Fits(t, s)
    ensures Fits(t, r)
    decreases |events|
  {
    if events == [] then s
    else Apply(t, Run(t, s, events[..|events| - 1]), events[|events| - 1])
  }

  predicate AllInRange(t: Tree, s: State)
    requires Fits(t, s)
    decreases t
  {
    && InRange(t.m, s.store)
    && forall i | 0 <= i < |t.instances| :: AllInRange(t.Child(i), s.kids[i])
  }

  predicate ValuesInRange(m: Module, values: Values) {
    forall x | x in values && m.Owns(x) :: values[x] < Pow2(m.WidthOf(x))
  }

  predicate MemsInRange(m: Module, mems: Memories) {
    forall x | x in mems && m.Owns(x) ::
      forall i | 0 <= i < |mems[x]| :: mems[x][i] < Pow2(m.WidthOf(x))
  }

  lemma {:induction false} AssignFromRange(m: Module, mems: Memories, p: Progress, i: nat)
    requires i <= |m.assignments| && ValuesInRange(m, p.values)
    ensures ValuesInRange(m, AssignFrom(m, mems, p, i).values)
    decreases |m.assignments| - i
  {
    if i < |m.assignments| {
      AssignFromRange(m, mems, AssignOne(m, mems, p, m.assignments[i]), i + 1);
    }
  }

  lemma ResetsRange(m: Module, values: Values)
    requires ValuesInRange(m, values)
    ensures ValuesInRange(m, ApplyResets(m, values))
  {
  }

  lemma {:induction false} DriveRange(inst: Instance, values: Values, kid: Values, i: nat)
    requires i <= |inst.inputs| && ValuesInRange(inst.child.m, kid)
    ensures ValuesInRange(inst.child.m, Drive(inst, values, kid, i))
  {
    if i > 0 {
      DriveRange(inst, values, kid, i - 1);
    }
  }

  lemma {:induction false} OutputsRange(m: Module, inst: Instance, kid: State, p: Progress, o: nat)
    requires o <= |inst.outputs| && ConnectionsOk(m, inst) && ValuesInRange(m, p.values)
    ensures ValuesInRange(m, OutputsOf(inst, kid, p, o).values)
  {
    if o > 0 {
      assert inst.outputs[o - 1] in inst.outputs;
      OutputsRange(m, inst, kid, p, o - 1);
    }
  }

  lemma {:induction false} CollectRange(t: Tree, kids: seq<State>, p: Progress, i: nat)
    requires i <= |t.instances| == |kids| && ValuesInRange(t.m, p.values)
    requires forall n | 0 <= n < |t.instances| :: ConnectionsOk(t.m, t.instances[n])
    ensures ValuesInRange(t.m, CollectOutputs(t, kids, p, i).values)
  {
    if i > 0 {
      CollectRange(t, kids, p, i - 1);
      OutputsRange(t.m, t.instances[i - 1], kids[i - 1], CollectOutputs(t, kids, p, i - 1),
                   |t.instances[i - 1].outputs|);
    }
  }

  lemma {:induction false} SettleKidsRange(t: Tree, values: Values, kids: seq<State>)
    requires Shaped(t, kids) && Sane(t)
    requires forall i | 0 <= i < |t.instances| :: AllInRange(t.Child(i), kids[i])
    ensures forall i | 0 <= i < |t.instances| ::
              AllInRange(t.Child(i), SettleKids(t, values, kids)[i])
    decreases t, 0, 0
  {
    forall i | 0 <= i < |t.instances|
      ensures AllInRange(t.Child(i), SettleKids(t, values, kids)[i])
    {
      DriveRange(t.instances[i], values, kids[i].Values(), |t.instances[i].inputs|);
      SettleRange(t.Child(i), DriveKid(t.instances[i], values, kids[i]));
    }
  }

  lemma AssignsRange(t: Tree, s: State)
    requires Fits(t, s) && AllInRange(t, s)
    ensures ValuesInRange(t.m, AfterAssigns(t, s).values)
  {
    ResetsRange(t.m, s.Values());
    AssignFromRange(t.m, s.store.mems, Progress(AfterResets(t, s), AfterResets(t, s) != s.Values()), 0);
  }

  lemma TopRange(t: Tree, s: State)
    requires Fits(t, s) && Sane(t) && AllInRange(t, s)
    ensures ValuesInRange(t.m, ApplyResets(t.m, AfterOutputs(t, s).values))
  {
    AssignsRange(t, s);
    CollectRange(t, AfterKids(t, s), AfterAssigns(t, s), |s.kids|);
    ResetsRange(t.m, AfterOutputs(t, s).values);
  }

  lemma RangeFrom(t: Tree, s: State)
    requires Fits(t, s) && ValuesInRange(t.m, s.Values()) && MemsInRange(t.m, s.store.mems)
    requires forall i | 0 <= i < |t.instances| :: AllInRange(t.Child(i), s.kids[i])
    ensures AllInRange(t, s)
  {
  }

  lemma {:induction false} PassRange(t: Tree, s: State)
    requires Fits(t, s) && Sane(t) && AllInRange(t, s)
    ensures AllInRange(t, Pass(t, s).state)
    decreases t, 1
  {
    var s' := Pass(t, s).state;
    PassSteps(t, s);
    TopRange(t, s);
    KidsRange(t, s);
    RangeFrom(t, s');
  }

  lemma {:induction false} KidsRange(t: Tree, s: State)
    requires Fits(t, s) && Sane(t) && AllInRange(t, s)
    ensures forall i | 0 <= i < |t.instances| :: AllInRange(t.Child(i), AfterKids(t, s)[i])
    decreases t, 0, 1
  {
    SettleKidsRange(t, AfterAssigns(t, s).values, s.kids);
  }

  lemma {:induction false} LoopRange(t: Tree, s: State, n: nat)
    requires Fits(t, s) && Sane(t) && AllInRange(t, s)
    ensures AllInRange(t, Loop(t, s, n))
    decreases t, 2, n
  {
    if n > 0 {
      PassRange(t, s);
      LoopStep(t, s, n);
      if Pass(t, s).changed && n > 1 {
        LoopRange(t, Pass(t, s).state, n - 1);
      }
    }
  }

  lemma {:induction false} SettleRange(t: Tree, s: State)
    requires Fits(t, s) && Sane(t) && AllInRange(t, s)
    ensures AllInRange(t, Settle(t, s))
    decreases t, 3
  {
    LoopRange(t, s, Limit(t));
  }

  lemma WriteRange(m: Module, st: Store, edges: ClockEdges, w: MemoryWrite, mems: Memories)
    requires MemsInRange(m, mems)
    ensures MemsInRange(m, WriteOne(m, st, edges, w, mems))
  {
  }

  lemma {:induction false} WritesRange(m: Module, st: Store, edges: ClockEdges, i: nat)
    requires i <= |m.memoryWrites| && MemsInRange(m, st.mems)
    ensures MemsInRange(m, WritesApplied(m, st, edges, i))
  {
    if i > 0 {
      WritesRange(m, st, edges, i - 1);
      WriteRange(m, st, edges, m.memoryWrites[i - 1], WritesApplied(m, st, edges, i - 1));
    }
  }

  lemma {:induction false} AdvanceRange(t: Tree, s: State, edges: ClockEdges)
    requires Fits(t, s) && AllInRange(t, s)
    ensures AllInRange(t, Advance(t, s, edges))
    decreases t
  {
    WritesRange(t.m, s.store, edges, |t.m.memoryWrites|);
    forall i | 0 <= i < |t.instances|
      ensures AllInRange(t.Child(i), Advance(t, s, edges).kids[i])
    {
      AdvanceRange(t.Child(i), s.kids[i], AllClocks);
    }
  }

  lemma {:induction false} PrepareRange(t: Tree, s: State)
    requires Fits(t, s) && Sane(t) && AllInRange(t, s)
    ensures AllInRange(t, Prepare(t, s))
    decreases t
  {
    SettleKidsRange(t, s.Values(), s.kids);
    forall i | 0 <= i < |t.instances|
      ensures AllInRange(t.Child(i), Prepare(t, s).kids[i])
    {
      PrepareRange(t.Child(i), SettleKids(t, s.Values(), s.kids)[i]);
    }
  }

  lemma {:induction false} InitialWordsRange(m: Module, mem: Signal, width: nat, depth: nat, i: nat)
    requires i <= |m.initialWords|
    ensures forall a | 0 <= a < depth :: InitialWords(m, mem, width, depth, i)[a] < Pow2(width)
  {
    if i > 0 {
      InitialWordsRange(m, mem, width, depth, i - 1);
    }
  }

  lemma {:induction false} InitialRange(t: Tree)
    ensures AllInRange(t, InitialState(t))
    decreases t
  {
    var mems := InitialStore(t.m).mems;
    forall x | x in mems
      ensures forall i | 0 <= i < |mems[x]| :: mems[x][i] < Pow2(t.m.WidthOf(x))
    {
      InitialWordsRange(t.m, x, t.m.WidthOf(x), t.m.signals[x.id].kind.depth, |t.m.initialWords|);
    }
    forall i | 0 <= i < |t.instances|
      ensures AllInRange(t.Child(i), InitialState(t).kids[i])
    {
      InitialRange(t.Child(i));
    }
  }

  lemma ApplyRange(t: Tree, s: State, e: Event)
    requires Fits(t, s) && Sane(t) && AllInRange(t, s)
    ensures AllInRange(t, Apply(t, s, e))
  {
    match e
    case SetTo(x, value) =>
      var width := if t.m.Owns(x) then t.m.WidthOf(x) else BITS;
      SettleRange(t, s.WithValues(s.Values()[x := Masked(value, width)]));
    case Edge(edges) =>
      SettleRange(t, s);
      PrepareRange(t, Settle(t, s));
      AdvanceRange(t, Prepare(t, Settle(t, s)), edges);
      SettleRange(t, Advance(t, Prepare(t, Settle(t, s)), edges));
  }

  /** From `Simulator::new` on, over every sequence of calls. */
  lemma {:induction false} RunRange(t: Tree, events: seq<Event>)
    requires Sane(t)
    ensures AllInRange(t, Run(t, Settle(t, InitialState(t)), events))
    decreases |events|
  {
    if events == [] {
      InitialRange(t);
      SettleRange(t, InitialState(t));
    } else {
      var before := events[..|events| - 1];
      RunRange(t, before);
      ApplyRange(t, Run(t, Settle(t, InitialState(t)), before), events[|events| - 1]);
    }
  }
}
