/** A hierarchy the cycle check accepts whose settling loop stops too early.

    The child passes two lanes straight through; the parent feeds the first
    lane's output into the second lane.  Port by port nothing is cyclic, but a
    value needs two rounds to cross the child twice, and a parent with one
    instance and no assignments gets one round. */
module StaleSettle {
  import opened Words
  import opened Rtl
  import opened Semantics
  import opened Simulation
  import opened Paths
  import opened Depends
  import opened Settling
  import opened Convergence
  import opened Bound

  const IN0 := Signal(1, 0)
  const IN1 := Signal(1, 1)
  const OUT0 := Signal(1, 2)
  const OUT1 := Signal(1, 3)
  const X := Signal(0, 0)
  const W := Signal(0, 1)
  const Y := Signal(0, 2)

  function Lanes(width: nat): Tree {
    Tree(Module(1,
                [SignalInfo(UInt(width), Input), SignalInfo(UInt(width), Input),
                 SignalInfo(UInt(width), Output), SignalInfo(UInt(width), Output)],
                [Assignment(OUT0, Ref(IN0)), Assignment(OUT1, Ref(IN1))], [], [], []), [])
  }

  function Design(width: nat): Tree {
    Tree(Module(0,
                [SignalInfo(UInt(width), Input), SignalInfo(UInt(width), Wire),
                 SignalInfo(UInt(width), Output)],
                [], [], [], []),
         [Instance(Lanes(width), [Conn(IN0, X), Conn(IN1, W)], [Conn(OUT0, W), Conn(OUT1, Y)])])
  }

  // -------------------------------------------------- the checks accept it

  lemma LaneEdges(width: nat, a: Signal, b: Signal)
    ensures Edge(Lanes(width), a, b) <==> (a == OUT0 && b == IN0) || (a == OUT1 && b == IN1)
  {
    var t := Lanes(width);
    assert AssignDeps(t.m.assignments[0]) == [IN0];
    assert AssignDeps(t.m.assignments[1]) == [IN1];
    if a == OUT0 && b == IN0 {
      assert t.m.assignments[0].dst == a && b in AssignDeps(t.m.assignments[0]);
    }
    if a == OUT1 && b == IN1 {
      assert t.m.assignments[1].dst == a && b in AssignDeps(t.m.assignments[1]);
    }
  }

  lemma LanePorts(width: nat, a: Signal, b: Signal)
    ensures PortDep(Lanes(width), a, b) <==> (a == OUT0 && b == IN0) || (a == OUT1 && b == IN1)
  {
    var r := Edges(Lanes(width));
    LaneEdges(width, a, b);
    if Reaches(r, a, b) {
      var c := ReachesFirst(r, a, b);
      LaneEdges(width, a, c);
      if c != b {
        var d := ReachesFirst(r, c, b);
        LaneEdges(width, c, d);
      }
    }
    if r(a, b) {
      StepReaches(r, a, b);
    }
  }

  lemma DesignEdges(width: nat, a: Signal, b: Signal)
    requires Edge(Design(width), a, b)
    ensures (a == W && b == X) || (a == Y && b == W)
  {
    var t := Design(width);
    var i, oc, ic :| 0 <= i < |t.instances|
                     && oc in t.instances[i].outputs && ic in t.instances[i].inputs
                     && oc.parent == a && ic.parent == b
                     && PortDep(t.Child(i), oc.port, ic.port);
    LanePorts(width, oc.port, ic.port);
  }

  function Height(s: Signal): nat {
    if s == Y then 2 else if s == W || s == OUT0 || s == OUT1 then 1 else 0
  }

  /** Validation accepts the design: every level is well formed and acyclic. */
  lemma Accepted(width: nat)
    ensures Sane(Design(width)) && Pure(Design(width))
    ensures Acyclic(Edges(Design(width))) && Acyclic(Edges(Lanes(width)))
  {
    forall a, b | Edges(Lanes(width))(a, b)
      ensures Height(a) > Height(b)
    {
      LaneEdges(width, a, b);
    }
    RankedAcyclic(Edges(Lanes(width)), Height);
    forall a, b | Edges(Design(width))(a, b)
      ensures Height(a) > Height(b)
    {
      DesignEdges(width, a, b);
    }
    RankedAcyclic(Edges(Design(width)), Height);
    WellFormed(width);
  }

  lemma LanesWellFormed(width: nat)
    ensures Sane(Lanes(width)) && Pure(Lanes(width))
  {
  }

  lemma Wiring(width: nat)
    ensures ConnectionsOk(Design(width).m, Design(width).instances[0])
  {
    var inst := Design(width).instances[0];
    forall k | 0 <= k < |inst.child.m.signals| && inst.child.m.signals[k].kind.Input?
      ensures Connected(inst, inst.child.m.Handle(k))
    {
      assert inst.inputs[k] in inst.inputs;
    }
  }

  lemma DesignOneDriver(width: nat)
    ensures OneDriver(Design(width))
  {
  }

  lemma OneChild(width: nat)
    ensures |Design(width).instances| == 1 && Design(width).Child(0) == Lanes(width)
  {
  }

  lemma WellFormed(width: nat)
    ensures Sane(Design(width)) && Pure(Design(width))
  {
    LanesWellFormed(width);
    Wiring(width);
    DesignOneDriver(width);
    NoRegisters(width);
    WellFormedAbove(Design(width), Design(width).instances[0]);
  }

  lemma NoRegisters(width: nat)
    ensures forall i | 0 <= i < |Design(width).m.signals| :: !Design(width).m.signals[i].kind.Reg?
  {
  }

  lemma WellFormedAbove(t: Tree, inst: Instance)
    requires t.m.assignments == [] && OneDriver(t) && t.instances == [inst]
    requires forall i | 0 <= i < |t.m.signals| :: !t.m.signals[i].kind.Reg?
    requires ConnectionsOk(t.m, inst) && Sane(inst.child) && Pure(inst.child)
    ensures Sane(t) && Pure(t)
  {
    assert t.Child(0) == inst.child;
  }

  // ------------------------------------------------ but the bound is short

  lemma Chain(width: nat)
    ensures Edge(Design(width), W, X) && Edge(Design(width), Y, W)
  {
    LanePorts(width, OUT0, IN0);
    LanePorts(width, OUT1, IN1);
    InstanceEdge(Design(width), 0, Conn(OUT0, W), Conn(IN0, X));
    InstanceEdge(Design(width), 0, Conn(OUT1, Y), Conn(IN1, W));
  }

  lemma NoRank(width: nat, r: map<Signal, nat>)
    ensures !RankOk(Design(width), r)
  {
    Chain(width);
    if RankOk(Design(width), r) {
      LongChain(Design(width), r, Conn(OUT1, Y));
    }
  }

  /** A chain of two dependencies takes two rounds. */
  lemma LongChain(t: Tree, r: map<Signal, nat>, c: Conn)
    requires RankOk(t, r) && |t.instances| > 0 && c in t.instances[0].outputs
    requires Edge(t, W, X) && Edge(t, c.parent, W)
    ensures Limit(t) >= 2
  {
    assert Rk(r, c.parent) > Rk(r, W) > Rk(r, X);
  }

  /** The chain from `X` to `Y` is longer than the bound. */
  lemma NotLevelled(width: nat)
    ensures !Levelled(Design(width))
  {
    forall r: map<Signal, nat>
      ensures !RankOk(Design(width), r)
    {
      NoRank(width, r);
    }
  }

  // --------------------------------------------------------- what it shows

  /** A settled child copies each lane. */
  lemma LaneCopies(width: nat, s: State)
    requires Fits(Lanes(width), s) && Settled(Lanes(width), s)
    ensures Get(s.Values(), OUT0) == Masked(Get(s.Values(), IN0), width)
    ensures Get(s.Values(), OUT1) == Masked(Get(s.Values(), IN1), width)
  {
    var t := Lanes(width);
    assert AssignOk(t.m, s.store, t.m.assignments[0]);
    assert AssignOk(t.m, s.store, t.m.assignments[1]);
  }

  lemma LanesSettle(width: nat, s: State)
    requires Fits(Lanes(width), s)
    ensures Settled(Lanes(width), Settle(Lanes(width), s))
  {
    var t := Lanes(width);
    var r: map<Signal, nat> := map[OUT0 := 1, OUT1 := 1];
    forall a, b | Edge(t, a, b)
      ensures Rk(r, a) > Rk(r, b)
    {
      LaneEdges(width, a, b);
    }
    assert RankOk(t, r);
    LanesWellFormed(width);
    PureSettleable(t);
    SettleSettles(t, s);
  }

  /** A parent without assignments and registers. */
  predicate OnlyWiring(t: Tree) {
    && t.m.assignments == [] && |t.instances| == 1
    && forall i | 0 <= i < |t.m.signals| :: !t.m.signals[i].kind.Reg?
  }

  lemma WiringSteps(t: Tree, s: State)
    requires Fits(t, s) && OnlyWiring(t)
    ensures forall values :: ApplyResets(t.m, values) == values
    ensures AfterAssigns(t, s) == Progress(s.Values(), false)
  {
    forall values
      ensures ApplyResets(t.m, values) == values
    {
      assert AsyncWrites(t.m, values) == map[];
    }
  }

  /** What one round leaves of such a parent. */
  lemma WiringRound(t: Tree, s: State)
    requires Fits(t, s) && Sane(t) && OnlyWiring(t) && Pure(t.Child(0))
    ensures
      var s' := Pass(t, s).state;
      && ResetsOk(t.m, s'.Values())
      && s'.kids[0] == Settle(t.Child(0), DriveKid(t.instances[0], s.Values(), s.kids[0]))
      && (forall c | c in t.instances[0].inputs ::
            InputOk(t.instances[0], s.Values(), s'.kids[0], c))
      && (forall c | c in t.instances[0].outputs ::
            OutputOk(t.instances[0], s'.Values(), s'.kids[0], c))
      && (forall z | !OutputDriven(t, z) :: Get(s'.Values(), z) == Get(s.Values(), z))
  {
    PassSteps(t, s);
    WiringSteps(t, s);
    SettleKidStored(t, s.Values(), s.kids, 0);
    WiringOutputs(t, s);
  }

  lemma WiringOutputs(t: Tree, s: State)
    requires Fits(t, s) && Sane(t) && OnlyWiring(t)
    ensures forall c | c in t.instances[0].outputs ::
              OutputOk(t.instances[0], AfterOutputs(t, s).values, AfterKids(t, s)[0], c)
    ensures forall z | !OutputDriven(t, z) ::
              Get(AfterOutputs(t, s).values, z) == Get(s.Values(), z)
  {
    WiringSteps(t, s);
    forall c | c in t.instances[0].outputs
      ensures OutputOk(t.instances[0], AfterOutputs(t, s).values, AfterKids(t, s)[0], c)
    {
      CollectSets(t, AfterKids(t, s), AfterAssigns(t, s), 1, 0, c);
    }
    forall z | !OutputDriven(t, z)
      ensures Get(AfterOutputs(t, s).values, z) == Get(s.Values(), z)
    {
      OutputsLeave(t, s, z);
    }
  }

  /** What the rounds below depend on. */
  predicate PassThrough(t: Tree, width: nat) {
    && Sane(t) && OnlyWiring(t) && Limit(t) == 1
    && t.Child(0) == Lanes(width) && !OutputDriven(t, X)
    && IsInput(t.m, X) && t.m.WidthOf(X) == width
    && var inst := t.instances[0];
       && Conn(IN0, X) in inst.inputs && Conn(IN1, W) in inst.inputs
       && Conn(OUT0, W) in inst.outputs && Conn(OUT1, Y) in inst.outputs
       && (forall c | c in inst.inputs :: c == Conn(IN0, X) || c == Conn(IN1, W))
       && (forall c | c in inst.outputs :: c == Conn(OUT0, W) || c == Conn(OUT1, Y))
  }

  lemma Wires(width: nat)
    ensures
      var inst := Design(width).instances[0];
      && Conn(IN0, X) in inst.inputs && Conn(IN1, W) in inst.inputs
      && Conn(OUT0, W) in inst.outputs && Conn(OUT1, Y) in inst.outputs
      && (forall c | c in inst.inputs :: c == Conn(IN0, X) || c == Conn(IN1, W))
      && (forall c | c in inst.outputs :: c == Conn(OUT0, W) || c == Conn(OUT1, Y))
      && !OutputDriven(Design(width), X)
  {
    var inst := Design(width).instances[0];
    assert inst.inputs[0] == Conn(IN0, X) && inst.inputs[1] == Conn(IN1, W);
    assert inst.outputs[0] == Conn(OUT0, W) && inst.outputs[1] == Conn(OUT1, Y);
  }

  lemma DesignPassesThrough(width: nat)
    ensures PassThrough(Design(width), width)
  {
    WellFormed(width);
    OneChild(width);
    Wires(width);
  }

  /** One round: the first lane takes the new `X`, the second the old `W`. */
  lemma OneRound(t: Tree, width: nat, s: State)
    requires PassThrough(t, width) && Fits(t, s)
    ensures
      var s' := Pass(t, s).state;
      var inst := t.instances[0];
      && Get(s'.Values(), X) == Get(s.Values(), X)
      && Settled(Lanes(width), s'.kids[0])
      && InputOk(inst, s.Values(), s'.kids[0], Conn(IN0, X))
      && InputOk(inst, s.Values(), s'.kids[0], Conn(IN1, W))
      && OutputOk(inst, s'.Values(), s'.kids[0], Conn(OUT0, W))
      && OutputOk(inst, s'.Values(), s'.kids[0], Conn(OUT1, Y))
  {
    LanesWellFormed(width);
    WiringRound(t, s);
    LanesSettle(width, DriveKid(t.instances[0], s.Values(), s.kids[0]));
  }

  /** In a settled design all three signals agree. */
  lemma SettledLanes(t: Tree, width: nat, s: State)
    requires PassThrough(t, width) && Fits(t, s) && Settled(t, s)
    requires Get(s.Values(), X) < Pow2(width)
    ensures Get(s.Values(), W) == Get(s.Values(), Y) == Get(s.Values(), X)
  {
    var kid := s.kids[0];
    assert InputOk(t.instances[0], s.Values(), kid, Conn(IN0, X));
    assert InputOk(t.instances[0], s.Values(), kid, Conn(IN1, W));
    assert OutputOk(t.instances[0], s.Values(), kid, Conn(OUT0, W));
    assert OutputOk(t.instances[0], s.Values(), kid, Conn(OUT1, Y));
    assert Settled(t.Child(0), kid);
    LanePortWidths(t.instances[0], width);
    LaneCopies(width, kid);
    LowSmall(Get(s.Values(), X), width);
  }

  lemma LanePortWidths(inst: Instance, width: nat)
    requires inst.child == Lanes(width)
    ensures PortWidth(inst.child.m, IN0) == PortWidth(inst.child.m, IN1) == width
    ensures PortWidth(inst.child.m, OUT0) == PortWidth(inst.child.m, OUT1) == width
  {
  }

  /** One round brings both signals fed to the child across it. */
  lemma RoundShows(t: Tree, width: nat, s: State)
    requires PassThrough(t, width) && Fits(t, s)
    requires Get(s.Values(), X) < Pow2(width) && Get(s.Values(), W) < Pow2(width)
    ensures
      var s' := Pass(t, s).state;
      && Get(s'.Values(), X) == Get(s'.Values(), W) == Get(s.Values(), X)
      && Get(s'.Values(), Y) == Get(s.Values(), W)
  {
    OneRound(t, width, s);
    LanePortWidths(t.instances[0], width);
    LaneCopies(width, Pass(t, s).state.kids[0]);
    LowSmall(Get(s.Values(), X), width);
    LowSmall(Get(s.Values(), W), width);
  }

  /** After `set` on a settled design the output still shows the value from
      before, so the design is settled exactly when that value was set again. */
  lemma StaleOutput(width: nat, s: State, v: Word)
    requires Fits(Design(width), s) && Settled(Design(width), s)
    requires Get(s.Values(), X) < Pow2(width) && v < Pow2(width)
    ensures
      var s' := SetSignal(Design(width), s, X, v);
      && Get(s'.Values(), X) == v
      && Get(s'.Values(), Y) == Get(s.Values(), X)
      && (Settled(Design(width), s') <==> v == Get(s.Values(), X))
  {
    DesignPassesThrough(width);
    StaleThrough(Design(width), width, s, v);
  }

  lemma StaleThrough(t: Tree, width: nat, s: State, v: Word)
    requires PassThrough(t, width) && Fits(t, s) && Settled(t, s)
    requires Get(s.Values(), X) < Pow2(width) && v < Pow2(width)
    ensures
      var s' := SetSignal(t, s, X, v);
      && Get(s'.Values(), X) == v && Get(s'.Values(), Y) == Get(s.Values(), X)
      && (Settled(t, s') <==> v == Get(s.Values(), X))
  {
    var s1 := s.WithValues(s.Values()[X := v]);
    SetIsPass(t, width, s, v);
    SettledLanes(t, width, s);
    RoundShows(t, width, s1);
    SettledRound(t, width, s1);
  }

  lemma SetIsPass(t: Tree, width: nat, s: State, v: Word)
    requires PassThrough(t, width) && Fits(t, s) && v < Pow2(width)
    ensures SetSignal(t, s, X, v) == Pass(t, s.WithValues(s.Values()[X := v])).state
  {
    LowSmall(v, width);
    LoopStep(t, s.WithValues(s.Values()[X := v]), 1);
  }

  /** One round settles exactly when `W` had the value of `X` before it. */
  lemma SettledRound(t: Tree, width: nat, s: State)
    requires PassThrough(t, width) && Fits(t, s)
    requires Get(s.Values(), X) < Pow2(width) && Get(s.Values(), W) < Pow2(width)
    ensures Settled(t, Pass(t, s).state) <==> Get(s.Values(), W) == Get(s.Values(), X)
  {
    RoundShows(t, width, s);
    if Settled(t, Pass(t, s).state) {
      SettledLanes(t, width, Pass(t, s).state);
    }
    if Get(s.Values(), W) == Get(s.Values(), X) {
      WhenSame(t, width, s);
    }
  }

  lemma WhenSame(t: Tree, width: nat, s: State)
    requires PassThrough(t, width) && Fits(t, s)
    requires Get(Pass(t, s).state.Values(), W) == Get(s.Values(), W)
    ensures Settled(t, Pass(t, s).state)
  {
    LanesWellFormed(width);
    var values, values' := s.Values(), Pass(t, s).state.Values();
    assert Settled(t.Child(0), Pass(t, s).state.kids[0]) && Get(values', X) == Get(values, X) by {
      OneRound(t, width, s);
    }
    forall c | c in t.instances[0].inputs
      ensures Get(values', c.parent) == Get(values, c.parent)
    {
      assert c == Conn(IN0, X) || c == Conn(IN1, W);
    }
    StillSettled(t, s);
  }

  /** A round that leaves the signals fed to the child as they were settles. */
  lemma StillSettled(t: Tree, s: State)
    requires Fits(t, s) && Sane(t) && OnlyWiring(t) && Pure(t.Child(0))
    requires Settled(t.Child(0), Pass(t, s).state.kids[0])
    requires forall c | c in t.instances[0].inputs ::
               Get(Pass(t, s).state.Values(), c.parent) == Get(s.Values(), c.parent)
    ensures Settled(t, Pass(t, s).state)
  {
    WiringRound(t, s);
    SettledAbove(t, Pass(t, s).state);
  }

  lemma SettledAbove(t: Tree, s: State)
    requires Fits(t, s) && t.m.assignments == [] && |t.instances| == 1
    requires ResetsOk(t.m, s.Values()) && Settled(t.Child(0), s.kids[0])
    requires forall c | c in t.instances[0].inputs :: InputOk(t.instances[0], s.Values(), s.kids[0], c)
    requires forall c | c in t.instances[0].outputs :: OutputOk(t.instances[0], s.Values(), s.kids[0], c)
    ensures Settled(t, s)
  {
  }

  // ------------------------------------------------------- and it is reached

  lemma InitialZero(m: Module, s: Signal)
    requires m.initialRegisters == []
    ensures Get(InitialStore(m).values, s) == 0
  {
    if m.Owns(s) {
      var width := m.WidthOf(s);
      LowSmall(0, BITS);
      LowSmall(0, width);
      assert Encode(0, width) == 0;
      assert m.Handle(s.id) == s;
    }
  }

  /** A new simulator of the design is settled, with every signal of the top
      at 0. */
  lemma StartSettled(width: nat)
    ensures
      var start := Settle(Design(width), InitialState(Design(width)));
      && Settled(Design(width), start)
      && Get(start.Values(), X) == 0 && Get(start.Values(), Y) == 0
  {
    var t := Design(width);
    InitialZero(t.m, X);
    InitialZero(t.m, W);
    DesignPassesThrough(width);
    ZeroStart(t, width, InitialState(t));
  }

  lemma ZeroStart(t: Tree, width: nat, s: State)
    requires PassThrough(t, width) && Fits(t, s)
    requires Get(s.Values(), X) == Get(s.Values(), W) == 0
    ensures Settled(t, Settle(t, s))
    ensures Get(Settle(t, s).Values(), X) == Get(Settle(t, s).Values(), Y) == 0
  {
    LoopStep(t, s, 1);
    RoundShows(t, width, s);
    WhenSame(t, width, s);
  }

  /** From construction: the first `set` of a value other than 0 leaves the output
      at 0 and the design unsettled. */
  lemma StaleFromStart(width: nat, v: Word)
    requires 0 < v < Pow2(width)
    ensures
      var start := Settle(Design(width), InitialState(Design(width)));
      var s := SetSignal(Design(width), start, X, v);
      && Get(s.Values(), X) == v && Get(s.Values(), Y) == 0
      && !Settled(Design(width), s)
  {
    var start := Settle(Design(width), InitialState(Design(width)));
    StartSettled(width);
    StaleOutput(width, start, v);
  }
}
