/** Modules that hold one generated stage and nothing else: they pass the settling
    conditions, so their runs refine the stage's queue with nothing assumed about
    the design. */
module StageModules {
  import opened Rtl
  import opened Simulation
  import opened Depends
  import opened Paths
  import opened Bound
  import opened Range
  import opened ReadyValid
  import opened Emission
  import opened Builder
  import opened Stages
  import opened Streams
  import opened Runs
  import Ranking

  // ------------------------------------------------------------ layered modules

  /** Outputs above wires above everything else. */
  function KindRank(m: Module, x: Signal): nat {
    if !m.Owns(x) then 0
    else if m.signals[x.id].kind.Output? then 2
    else if m.signals[x.id].kind.Wire? then 1
    else 0
  }

  /** The assignment drives a signal of a higher layer than those it reads. */
  predicate Above(m: Module, a: Assignment) {
    Drivable(m, a.dst) && forall x | x in ExprDeps(a.expr) :: KindRank(m, x) < KindRank(m, a.dst)
  }

  predicate Layered(m: Module) {
    && (forall j | 0 <= j < |m.assignments| :: Above(m, m.assignments[j]))
    && (forall j, k | 0 <= j < k < |m.assignments| :: m.assignments[j].dst != m.assignments[k].dst)
    && (forall i | 0 <= i < |m.signals| :: !HasAsync(m.signals[i]))
  }

  function Alone(m: Module): Tree {
    Tree(m, [])
  }

  lemma LayeredEdge(m: Module, a: Signal, b: Signal)
    requires Layered(m) && Ranking.CoarseEdge(Alone(m), a, b)
    ensures KindRank(m, a) > KindRank(m, b)
  {
    var j :| 0 <= j < |m.assignments| && m.assignments[j].dst == a && b in AssignDeps(m.assignments[j]);
    assert Above(m, m.assignments[j]);
    HeldDeps(m.assignments[j], b);
  }

  lemma HeldDeps(a: Assignment, b: Signal)
    requires b in AssignDeps(a)
    ensures b in ExprDeps(a.expr)
  {
  }

  /** A layered module settles. */
  lemma LayeredSettles(m: Module)
    requires Layered(m)
    ensures Settleable(Alone(m))
  {
    forall a, b | Ranking.CoarseEdges(Alone(m))(a, b)
      ensures KindRank(m, a) > KindRank(m, b)
    {
      LayeredEdge(m, a, b);
    }
    RankedAcyclic(Ranking.CoarseEdges(Alone(m)), x => KindRank(m, x));
    Ranking.CoarseSettleable(Alone(m));
  }

  lemma HoldReads(a: Assignment)
    ensures IsHold(a) ==> a.dst in ExprDeps(a.expr)
  {
    if IsHold(a) {
      assert ExprDeps(a.expr) == ExprDeps(a.expr.cond) + ExprDeps(a.expr.thenExpr) + ExprDeps(a.expr.elseExpr);
      assert ExprDeps(a.expr.elseExpr) == [a.dst];
    }
  }

  /** No layered assignment reads its own destination. */
  lemma LayeredPure(m: Module)
    requires Layered(m)
    ensures Sane(Alone(m)) && Pure(Alone(m))
  {
    forall j | 0 <= j < |m.assignments|
      ensures !IsHold(m.assignments[j]) && Drivable(m, m.assignments[j].dst)
    {
      assert Above(m, m.assignments[j]);
      HoldReads(m.assignments[j]);
    }
  }

  // ------------------------------------------------ what crosses a stage

  /** The signals of a channel that go with the data. */
  predicate Carries(c: Channel, x: Signal) {
    x == c.valid || x in c.bits
  }

  /** Of the input ports an assignment reads at most the data of the input channel,
      for the data of the output channel, or the readiness of the output channel,
      for that of the input channel. */
  predicate Crosses(m: Module, i: Channel, o: Channel, a: Assignment) {
    forall x | x in ExprDeps(a.expr) && IsInput(m, x) ::
      (a.dst == i.ready && x == o.ready) || (Carries(o, a.dst) && Carries(i, x))
  }

  /** Data flows from the input to the output channel and readiness back, and
      nothing else crosses the module within a cycle. */
  predicate Flows(m: Module, i: Channel, o: Channel) {
    && Layered(m)
    && IsOutput(m, i.ready) && IsOutput(m, o.valid) && (forall k | 0 <= k < |o.bits| :: IsOutput(m, o.bits[k]))
    && forall j | 0 <= j < |m.assignments| :: Crosses(m, i, o, m.assignments[j])
  }

  lemma AloneEdge(m: Module, a: Signal, b: Signal) returns (j: nat)
    requires Layered(m) && Edges(Alone(m))(a, b)
    ensures j < |m.assignments| && m.assignments[j].dst == a && b in ExprDeps(m.assignments[j].expr)
    ensures KindRank(m, b) < KindRank(m, a) && KindRank(m, a) > 0
  {
    j :| 0 <= j < |m.assignments| && m.assignments[j].dst == a && b in AssignDeps(m.assignments[j]);
    assert Above(m, m.assignments[j]);
    HeldDeps(m.assignments[j], b);
  }

  /** Port by port, that is all that depends on anything. */
  lemma FlowsAcross(m: Module, i: Channel, o: Channel, a: Signal, b: Signal)
    requires Flows(m, i, o) && PortDep(Alone(m), a, b) && IsInput(m, b)
    ensures (a == i.ready && b == o.ready) || (Carries(o, a) && Carries(i, b))
  {
    var r := Edges(Alone(m));
    var c := ReachesFirst(r, a, b);
    var j := AloneEdge(m, a, c);
    assert Crosses(m, i, o, m.assignments[j]);
    if c != b {
      var e := ReachesFirst(r, c, b);
      var k := AloneEdge(m, c, e);
      assert Crosses(m, i, o, m.assignments[k]);
      if e != b {
        var g := ReachesFirst(r, e, b);
        var l := AloneEdge(m, e, g);
      }
      assert false;
    }
  }

  // --------------------------------------------------------- the empty module

  /** Clock, reset, an accepting and an offering channel. */
  function Shell(id: nat, payload: Payload): Module {
    Module(id,
           ShellPrefix() + ChannelInfos(payload, Sink) + ChannelInfos(payload, Source),
           [], [], [], [])
  }

  function OutBase(payload: Payload): nat {
    4 + |PayloadTypes(payload)|
  }

  function Accepting(id: nat, payload: Payload): ReadyValidRef {
    ReadyValidRef(Sink, ChannelAt(id, 2, |PayloadTypes(payload)|), payload)
  }

  function Offering(id: nat, payload: Payload): ReadyValidRef {
    ReadyValidRef(Source, ChannelAt(id, OutBase(payload), |PayloadTypes(payload)|), payload)
  }

  function ClockOf(id: nat): Signal { Signal(id, 0) }

  function ResetOf(id: nat): Signal { Signal(id, 1) }

  lemma ChannelPorts(payload: Payload, role: Role)
    ensures
      var infos, tys := ChannelInfos(payload, role), PayloadTypes(payload);
      && |infos| == 2 + |tys|
      && infos[0] == SignalInfo(UInt(1), Forward(role)) && infos[1] == SignalInfo(UInt(1), Backward(role))
      && forall k | 0 <= k < |tys| :: infos[2 + k] == SignalInfo(tys[k], Forward(role))
  {
  }

  /** The ports of one direction and type at the places of a channel. */
  predicate PortsAt(infos: seq<SignalInfo>, base: nat, tys: seq<BitType>, forward: SignalKind, backward: SignalKind) {
    && base + 2 + |tys| <= |infos|
    && infos[base] == SignalInfo(UInt(1), forward) && infos[base + 1] == SignalInfo(UInt(1), backward)
    && forall k | 0 <= k < |tys| :: infos[base + 2 + k] == SignalInfo(tys[k], forward)
  }

  lemma PortsPlaced(before: seq<SignalInfo>, after: seq<SignalInfo>, payload: Payload, role: Role, base: nat)
    requires base == |before|
    ensures PortsAt(before + ChannelInfos(payload, role) + after, base, PayloadTypes(payload),
                    Forward(role), Backward(role))
  {
    ChannelPorts(payload, role);
    PortsMiddle(before, ChannelInfos(payload, role), after, PayloadTypes(payload), Forward(role), Backward(role));
  }

  lemma PortsMiddle(before: seq<SignalInfo>, ports: seq<SignalInfo>, after: seq<SignalInfo>, tys: seq<BitType>,
                    forward: SignalKind, backward: SignalKind)
    requires |ports| == 2 + |tys| && PortsAt(ports, 0, tys, forward, backward)
    ensures PortsAt(before + ports + after, |before|, tys, forward, backward)
  {
    var infos := before + ports + after;
    Middle(before, ports, after, 0);
    Middle(before, ports, after, 1);
    forall k | 0 <= k < |tys|
      ensures infos[|before| + 2 + k] == SignalInfo(tys[k], forward)
    {
      Middle(before, ports, after, 2 + k);
      assert ports[0 + 2 + k] == SignalInfo(tys[k], forward);
    }
  }

  lemma Middle(before: seq<SignalInfo>, ports: seq<SignalInfo>, after: seq<SignalInfo>, k: nat)
    requires k < |ports|
    ensures (before + ports + after)[|before| + k] == ports[k]
  {
  }

  function ShellPrefix(): seq<SignalInfo> {
    [SignalInfo(UInt(1), Input), SignalInfo(UInt(1), Input)]
  }

  /** What a shell's signals are. */
  lemma ShellSignals(id: nat, payload: Payload)
    ensures
      var infos, tys := Shell(id, payload).signals, PayloadTypes(payload);
      && |infos| == 6 + |tys| + |tys| && infos[0] == infos[1] == SignalInfo(UInt(1), Input)
      && PortsAt(infos, 2, tys, Input, Output) && PortsAt(infos, OutBase(payload), tys, Output, Input)
  {
    var a, b := ChannelInfos(payload, Sink), ChannelInfos(payload, Source);
    ChannelPorts(payload, Sink);
    ChannelPorts(payload, Source);
    PortsPlaced(ShellPrefix(), b, payload, Sink, 2);
    PortsPlaced(ShellPrefix() + a, [], payload, Source, OutBase(payload));
    NothingAfter(ShellPrefix() + a + b);
    FirstTwo(ShellPrefix(), a, b);
  }

  lemma NothingAfter(infos: seq<SignalInfo>)
    ensures infos + [] == infos
  {
  }

  lemma FirstTwo(p: seq<SignalInfo>, a: seq<SignalInfo>, b: seq<SignalInfo>)
    requires |p| == 2
    ensures (p + a + b)[0] == p[0] && (p + a + b)[1] == p[1] && |p + a + b| == 2 + |a| + |b|
  {
  }

  /** A channel whose ports are in place. */
  lemma ChannelInPlace(m: Module, base: nat, tys: seq<BitType>, forward: SignalKind, backward: SignalKind)
    requires PortsAt(m.signals, base, tys, forward, backward)
    ensures ChannelOk(m, ChannelAt(m.id, base, |tys|), tys)
  {
  }

  lemma ShellEnds(id: nat, payload: Payload)
    ensures EndsOk(Shell(id, payload), Accepting(id, payload), Offering(id, payload), ResetOf(id))
  {
    var m, tys := Shell(id, payload), PayloadTypes(payload);
    ShellSignals(id, payload);
    ChannelInPlace(m, 2, tys, Input, Output);
    ChannelInPlace(m, OutBase(payload), tys, Output, Input);
  }

  predicate AllPorts(infos: seq<SignalInfo>) {
    forall i | 0 <= i < |infos| :: infos[i].kind.Input? || infos[i].kind.Output?
  }

  lemma BothPorts(a: seq<SignalInfo>, b: seq<SignalInfo>)
    requires AllPorts(a) && AllPorts(b)
    ensures AllPorts(a + b)
  {
  }

  lemma ChannelAllPorts(payload: Payload, role: Role)
    ensures AllPorts(ChannelInfos(payload, role))
  {
    BothPorts([SignalInfo(UInt(1), Forward(role)), SignalInfo(UInt(1), Backward(role))],
              Infos(PayloadTypes(payload), Forward(role)));
  }

  lemma ShellPorts(id: nat, payload: Payload)
    ensures AllPorts(Shell(id, payload).signals)
  {
    ChannelAllPorts(payload, Sink);
    ChannelAllPorts(payload, Source);
    BothPorts(ShellPrefix(), ChannelInfos(payload, Sink));
    BothPorts(ShellPrefix() + ChannelInfos(payload, Sink), ChannelInfos(payload, Source));
  }

  lemma ShellKinds(id: nat, payload: Payload)
    ensures
      var m, i, o := Shell(id, payload), Accepting(id, payload).channel, Offering(id, payload).channel;
      && IsInput(m, i.valid) && IsOutput(m, i.ready) && IsOutput(m, o.valid) && IsInput(m, o.ready)
      && (forall k | 0 <= k < |i.bits| :: IsInput(m, i.bits[k]))
      && (forall k | 0 <= k < |o.bits| :: IsOutput(m, o.bits[k]))
      && |i.bits| == |o.bits| == |PayloadTypes(payload)|
  {
    ShellSignals(id, payload);
  }

  /** The builder calls that make a shell. */
  method BuildShell(id: nat, payload: Payload) returns (b: ModuleBuilder)
    ensures fresh(b) && b.id == id && b.Built() == Shell(id, payload)
  {
    b := new ModuleBuilder(id);
    var clock := b.AddSignal(UInt(1), Input);
    var reset := b.AddSignal(UInt(1), Input);
    var input := b.RvSink(payload);
    var output := b.RvSource(payload);
  }

  // ------------------------------------------------- kinds survive emission

  lemma KeepsKind(a: Module, b: Module, assigns: seq<Assignment>, x: Signal)
    requires Emitted(a, b, assigns) && a.Owns(x)
    ensures b.Owns(x) && b.signals[x.id] == a.signals[x.id]
  {
  }

  lemma NoAsyncAfter(a: Module, m: Module, assigns: seq<Assignment>)
    requires AllPorts(a.signals) && Emitted(a, m, assigns)
    ensures forall i | 0 <= i < |m.signals| :: !HasAsync(m.signals[i])
  {
    forall i | 0 <= i < |m.signals|
      ensures !HasAsync(m.signals[i])
    {
      if i < |a.signals| {
        assert m.signals[i] == a.signals[i];
      } else {
        assert Plain(m.signals[i]);
      }
    }
  }

  /** How the matched channels lie in the shell. */
  predicate OnShell(id: nat, payload: Payload, w: Match) {
    var i, o := Accepting(id, payload).channel, Offering(id, payload).channel;
    && w.input.valid == i.valid && w.input.ready == i.ready && w.output == o
    && |w.fields| == |o.bits| && |w.input.bits| == |w.fields|
    && forall k | 0 <= k < |w.input.bits| :: w.input.bits[k] in i.bits
  }

  /** The matched channels have one signal per field, each of the given channel. */
  lemma MatchBits(input: ReadyValidRef, output: ReadyValidRef)
    requires MatchPayloads(input, output).Matched?
    requires |input.channel.bits| == |PayloadTypes(input.payload)|
    requires |output.channel.bits| == |PayloadTypes(output.payload)|
    ensures
      var w := MatchPayloads(input, output).m;
      && |w.fields| == |w.input.bits| == |output.channel.bits|
      && forall k | 0 <= k < |w.input.bits| :: w.input.bits[k] in input.channel.bits
  {
    if input.payload.Bundle? {
      BundleBits(input, output);
    }
  }

  lemma BundleBits(input: ReadyValidRef, output: ReadyValidRef)
    requires MatchPayloads(input, output).Matched? && input.payload.Bundle?
    requires |input.channel.bits| == |PayloadTypes(input.payload)|
    ensures
      var w := MatchPayloads(input, output).m;
      forall k | 0 <= k < |w.input.bits| :: w.input.bits[k] in input.channel.bits
  {
    var a, b := input.payload.leaves, output.payload.leaves;
    var w := MatchPayloads(input, output).m;
    NoMissing(a, b, |b|);
    forall k | 0 <= k < |w.input.bits|
      ensures w.input.bits[k] in input.channel.bits
    {
      assert w.input.bits[k] == input.channel.bits[PathIndex(a, b[k].path)];
    }
  }

  lemma MatchOnShell(id: nat, payload: Payload)
    requires MatchPayloads(Accepting(id, payload), Offering(id, payload)).Matched?
    ensures OnShell(id, payload, MatchPayloads(Accepting(id, payload), Offering(id, payload)).m)
  {
    MatchBits(Accepting(id, payload), Offering(id, payload));
  }

  /** What every stage's assignments look like: first the two handshakes, then
      perhaps a wire, then the payload. */
  predicate StageTargets(w: Match, assigns: seq<Assignment>, extra: seq<Signal>) {
    && |assigns| == 2 + |extra| + |w.fields|
    && ((assigns[0].dst == w.input.ready && assigns[1].dst == w.output.valid)
        || (assigns[0].dst == w.output.valid && assigns[1].dst == w.input.ready))
    && (forall k | 0 <= k < |extra| :: assigns[2 + k].dst == extra[k])
    && (forall k | 0 <= k < |w.fields| :: assigns[2 + |extra| + k].dst == BitAt(w.output, k))
  }

  lemma TargetsApart(id: nat, payload: Payload, w: Match, assigns: seq<Assignment>, extra: seq<Signal>,
                     j: nat, k: nat)
    requires OnShell(id, payload, w) && StageTargets(w, assigns, extra) && |extra| <= 1
    requires forall x | x in extra :: x.id >= |Shell(id, payload).signals|
    requires j < k < |assigns|
    ensures assigns[j].dst != assigns[k].dst
  {
    var n := 2 + |extra|;
    if n <= k {
      assert assigns[k].dst == BitAt(w.output, k - n) == Signal(id, OutBase(payload) + 2 + (k - n));
      if n <= j {
        assert assigns[j].dst == BitAt(w.output, j - n);
      }
    }
    if 2 <= j < n {
      assert assigns[j].dst == extra[j - 2];
    }
    if 2 <= k < n {
      assert assigns[k].dst == extra[k - 2];
    }
  }

  lemma StageLayered(id: nat, payload: Payload, m: Module, w: Match, assigns: seq<Assignment>,
                     extra: seq<Signal>)
    requires Emitted(Shell(id, payload), m, assigns) && OnShell(id, payload, w)
    requires StageTargets(w, assigns, extra) && |extra| <= 1
    requires forall x | x in extra :: x.id >= |Shell(id, payload).signals|
    requires forall j | 0 <= j < |assigns| ::
               Above(m, assigns[j]) && Crosses(m, w.input, w.output, assigns[j])
    ensures Flows(m, w.input, w.output) && Settleable(Alone(m))
  {
    assert m.assignments == assigns;
    ShellPorts(id, payload);
    NoAsyncAfter(Shell(id, payload), m, assigns);
    forall j, k | 0 <= j < k < |m.assignments|
      ensures m.assignments[j].dst != m.assignments[k].dst
    {
      TargetsApart(id, payload, w, assigns, extra, j, k);
    }
    ChannelKinds(id, payload, m, w, assigns);
    LayeredSettles(m);
  }

  /** The kinds of the channel signals in the finished module. */
  lemma ChannelKinds(id: nat, payload: Payload, m: Module, w: Match, assigns: seq<Assignment>)
    requires Emitted(Shell(id, payload), m, assigns) && OnShell(id, payload, w)
    ensures IsInput(m, w.input.valid) && IsOutput(m, w.input.ready)
    ensures IsOutput(m, w.output.valid) && IsInput(m, w.output.ready)
    ensures forall k | 0 <= k < |w.fields| ::
              IsInput(m, BitAt(w.input, k)) && IsOutput(m, BitAt(w.output, k))
    ensures forall k | 0 <= k < |w.output.bits| :: IsOutput(m, w.output.bits[k])
  {
    ShellKinds(id, payload);
    var s := Shell(id, payload);
    KeepsKind(s, m, assigns, w.input.valid);
    KeepsKind(s, m, assigns, w.input.ready);
    KeepsKind(s, m, assigns, w.output.valid);
    KeepsKind(s, m, assigns, w.output.ready);
    forall k | 0 <= k < |w.fields|
      ensures IsInput(m, BitAt(w.input, k)) && IsOutput(m, BitAt(w.output, k))
    {
      assert w.input.bits[k] in Accepting(id, payload).channel.bits;
      KeepsKind(s, m, assigns, w.input.bits[k]);
      KeepsKind(s, m, assigns, w.output.bits[k]);
    }
  }

  // ------------------------------------------------------------ FIFO modules

  lemma {:induction false} EntryMuxDeps(selector: Signal, width: nat, entries: seq<Signal>, n: nat, x: Signal)
    requires 0 < n <= |entries| && x in ExprDeps(EntryMux(selector, width, entries, n))
    ensures x == selector || exists i | 0 <= i < n :: entries[i] == x
  {
    if n > 1 {
      var c := EqExpr(Ref(selector), LitU(n - 1, width));
      CompareDeps(EqOp, selector, n - 1, width);
      if x != selector && x != entries[n - 1] {
        EntryMuxDeps(selector, width, entries, n - 1, x);
      }
    }
  }

  lemma CompareDeps(op: CompareOp, x: Signal, v: nat, width: nat)
    ensures ExprDeps(Compare(op, Ref(x), LitU(v, width))) == [x]
  {
    assert ExprDeps(Ref(x)) == [x] && ExprDeps(LitU(v, width)) == [];
  }

  /** The assignment reads no input port at all. */
  predicate Inner(m: Module, a: Assignment) {
    Above(m, a) && forall x | x in ExprDeps(a.expr) :: !IsInput(m, x)
  }

  /** A register of the module, below its wires and outputs. */
  predicate Stored(m: Module, x: Signal) {
    m.Owns(x) && m.signals[x.id].kind.Reg?
  }

  lemma ControlAbove(m: Module, c: Control)
    requires c.depth > 0 && ControlEmitted(m, c)
    requires IsOutput(m, c.input.ready) && IsOutput(m, c.output.valid)
    ensures Inner(m, ControlAssigns(c)[0]) && Inner(m, ControlAssigns(c)[1])
    ensures Stored(m, c.rptr)
  {
    CompareDeps(NeOp, c.count, c.depth, c.CountWidth());
    CompareDeps(NeOp, c.count, 0, c.CountWidth());
  }

  lemma EntryAbove(m: Module, c: Control, w: Match, j: nat, entries: seq<Signal>)
    requires c.depth > 0 && j < |w.fields| && FieldEmitted(m, c, w, j, entries)
    requires Stored(m, c.rptr) && IsOutput(m, BitAt(w.output, j))
    ensures Inner(m, EntryAssign(c, BitAt(w.output, j), entries))
  {
    var e := EntryAssign(c, BitAt(w.output, j), entries);
    forall x | x in ExprDeps(e.expr)
      ensures Stored(m, x)
    {
      EntryMuxDeps(c.rptr, c.PtrWidth(), entries, c.depth, x);
    }
  }

  lemma FifoAbove(m: Module, c: Control, w: Match, data: seq<seq<Signal>>, j: nat)
    requires c.depth > 0 && Square(c, data) && ControlEmitted(m, c) && FieldsEmitted(m, c, w, data)
    requires IsOutput(m, c.input.ready) && IsOutput(m, c.output.valid)
    requires forall k | 0 <= k < |w.fields| :: IsOutput(m, BitAt(w.output, k))
    requires j < |FifoAssigns(c, w, data)|
    ensures Inner(m, FifoAssigns(c, w, data)[j])
  {
    ControlAbove(m, c);
    if j >= 2 {
      var k := j - 2;
      assert FieldEmitted(m, c, w, k, data[k]);
      EntryAbove(m, c, w, k, data[k]);
      assert FifoAssigns(c, w, data)[j] == FieldAssigns(c, w, data)[k];
    }
  }

  lemma FifoTargets(c: Control, w: Match, data: seq<seq<Signal>>)
    requires c.depth > 0 && Square(c, data) && |data| == |w.fields|
    requires c.input == w.input && c.output == w.output
    ensures StageTargets(w, FifoAssigns(c, w, data), [])
  {
    forall k | 0 <= k < |w.fields|
      ensures FifoAssigns(c, w, data)[2 + k].dst == BitAt(w.output, k)
    {
      assert FifoAssigns(c, w, data)[2 + k] == FieldAssigns(c, w, data)[k];
    }
  }

  lemma FifoLayered(id: nat, payload: Payload, m: Module, w: Match, c: Control, data: seq<seq<Signal>>)
    requires c.depth > 0 && Square(c, data) && |data| == |w.fields| && OnShell(id, payload, w)
    requires c.input == w.input && c.output == w.output
    requires Emitted(Shell(id, payload), m, FifoAssigns(c, w, data))
    requires ControlEmitted(m, c) && FieldsEmitted(m, c, w, data)
    ensures Flows(m, w.input, w.output) && Settleable(Alone(m))
  {
    var assigns := FifoAssigns(c, w, data);
    ChannelKinds(id, payload, m, w, assigns);
    FifoTargets(c, w, data);
    forall j | 0 <= j < |assigns|
      ensures Above(m, assigns[j]) && Crosses(m, w.input, w.output, assigns[j])
    {
      FifoAbove(m, c, w, data, j);
    }
    StageLayered(id, payload, m, w, assigns, []);
  }

  lemma FifoParts(m: Module, w: Match, f: FifoNet)
    requires HasFifo(m, f) && f.fields == w.fields && f.c.input == w.input && f.c.output == w.output
    ensures ControlEmitted(m, f.c) && FieldsEmitted(m, f.c, w, f.data)
  {
    forall k | 0 <= k < |f.fields|
      ensures FieldEmitted(m, f.c, w, k, f.data[k])
    {
      forall i | 0 <= i < f.c.depth
        ensures HasReg(m, f.data[k][i], f.fields[k], f.c.clock, f.c.reset,
                       LoadNext(f.c, BitAt(w.input, k), f.data[k][i], i))
      {
        assert f.DataNext(k, i) == LoadNext(f.c, BitAt(w.input, k), f.data[k][i], i);
      }
      assert Assigns(m, f.c.output.bits[k], EntryMux(f.c.rptr, f.c.PtrWidth(), f.data[k], f.c.depth));
    }
  }

  lemma ReadDeps(f: MemFifoNet, k: nat)
    requires k < |f.fields|
    ensures ExprDeps(f.ReadField(k)) == [f.readData]
  {
    if f.packed {
      var slice := Slice(Ref(f.readData), PackedWidth(f.fields[k + 1..]), f.fields[k].width);
      assert ExprDeps(slice) == [f.readData];
      assert f.ReadField(k) == slice || f.ReadField(k) == Cast(slice, Signed);
    }
  }

  lemma MemFifoAbove(m: Module, w: Match, f: MemFifoNet, j: nat)
    requires f.c.depth > 0 && f.fields == w.fields && ControlEmitted(m, f.c)
    requires IsOutput(m, f.c.input.ready) && IsOutput(m, f.c.output.valid)
    requires forall k | 0 <= k < |w.fields| :: IsOutput(m, BitAt(w.output, k))
    requires m.Owns(f.readData) && m.signals[f.readData.id].kind.Wire?
    requires j < |MemFifoAssigns(w, f)|
    ensures Inner(m, MemFifoAssigns(w, f)[j])
  {
    ControlAbove(m, f.c);
    if j >= 3 {
      var k := j - 3;
      ReadDeps(f, k);
      assert MemFifoAssigns(w, f)[j] == FieldReads(w, f, |f.fields|)[k];
    } else if j == 2 {
      assert ExprDeps(Ref(f.c.rptr)) == [f.c.rptr];
      assert ExprDeps(ReadAssign(f).expr) == [f.c.rptr];
    }
  }

  lemma MemFifoTargets(w: Match, f: MemFifoNet)
    requires f.fields == w.fields && f.c.input == w.input && f.c.output == w.output
    ensures StageTargets(w, MemFifoAssigns(w, f), [f.readData])
  {
    forall k | 0 <= k < |w.fields|
      ensures MemFifoAssigns(w, f)[3 + k].dst == BitAt(w.output, k)
    {
      assert MemFifoAssigns(w, f)[3 + k] == FieldReads(w, f, |f.fields|)[k];
    }
  }

  lemma MemFifoLayered(id: nat, payload: Payload, m: Module, w: Match, f: MemFifoNet)
    requires f.c.depth > 0 && f.fields == w.fields && OnShell(id, payload, w)
    requires f.c.input == w.input && f.c.output == w.output
    requires Emitted(Shell(id, payload), m, MemFifoAssigns(w, f)) && ControlEmitted(m, f.c)
    requires ReadWireAt(f, |Shell(id, payload).signals|, m)
    ensures Flows(m, w.input, w.output) && Settleable(Alone(m))
  {
    var assigns := MemFifoAssigns(w, f);
    ChannelKinds(id, payload, m, w, assigns);
    MemFifoTargets(w, f);
    forall j | 0 <= j < |assigns|
      ensures Above(m, assigns[j]) && Crosses(m, w.input, w.output, assigns[j])
    {
      MemFifoAbove(m, w, f, j);
    }
    StageLayered(id, payload, m, w, assigns, [f.readData]);
  }

  // ------------------------------------------------------------- skid modules

  lemma HeldAbove(m: Module, f: SkidNet, w: Match, j: nat, x: Signal)
    requires j < |w.fields| && HeldEmitted(m, f, w, j, x) && KindRank(m, f.full) == 0
    requires IsInput(m, BitAt(w.input, j)) && IsOutput(m, BitAt(w.output, j))
    requires j < |w.input.bits| && j < |w.output.bits| && !IsInput(m, f.full)
    ensures
      var a := HeldAssign(f, x, BitAt(w.input, j), BitAt(w.output, j));
      Above(m, a) && Crosses(m, w.input, w.output, a)
  {
    var a := HeldAssign(f, x, BitAt(w.input, j), BitAt(w.output, j));
    assert KindRank(m, x) == 0;
    assert forall y | y in ExprDeps(a.expr) :: y == f.full || y == x || y == BitAt(w.input, j);
  }

  lemma SkidAbove(m: Module, w: Match, f: SkidNet, j: nat)
    requires SkidEmitted(m, f) && AllHeld(m, f, w, f.held)
    requires IsInput(m, f.input.valid) && IsInput(m, f.output.ready)
    requires IsOutput(m, f.input.ready) && IsOutput(m, f.output.valid)
    requires forall k | 0 <= k < |w.fields| ::
               IsInput(m, BitAt(w.input, k)) && IsOutput(m, BitAt(w.output, k))
    requires |w.fields| <= |w.input.bits| && |w.fields| <= |w.output.bits|
    requires f.input == w.input && f.output == w.output
    requires j < |SkidAssigns(f, w, f.held)|
    ensures
      var a := SkidAssigns(f, w, f.held)[j];
      Above(m, a) && Crosses(m, w.input, w.output, a)
  {
    SkidHandshakeAbove(m, f);
    if j >= 2 {
      var k := j - 2;
      assert HeldEmitted(m, f, w, k, f.held[k]);
      HeldAbove(m, f, w, k, f.held[k]);
      assert SkidAssigns(f, w, f.held)[j] == HeldAssigns(f, w, f.held)[k];
    }
  }

  lemma SkidTargets(w: Match, f: SkidNet)
    requires |f.held| == |w.fields| && f.input == w.input && f.output == w.output
    ensures StageTargets(w, SkidAssigns(f, w, f.held), [])
  {
    forall k | 0 <= k < |w.fields|
      ensures SkidAssigns(f, w, f.held)[2 + k].dst == BitAt(w.output, k)
    {
      assert SkidAssigns(f, w, f.held)[2 + k] == HeldAssigns(f, w, f.held)[k];
    }
  }

  lemma SkidLayered(id: nat, payload: Payload, m: Module, w: Match, f: SkidNet)
    requires |f.held| == |w.fields| && OnShell(id, payload, w)
    requires f.input == w.input && f.output == w.output
    requires Emitted(Shell(id, payload), m, SkidAssigns(f, w, f.held))
    requires SkidEmitted(m, f) && AllHeld(m, f, w, f.held)
    ensures Flows(m, w.input, w.output) && Settleable(Alone(m))
  {
    var assigns := SkidAssigns(f, w, f.held);
    ChannelKinds(id, payload, m, w, assigns);
    SkidTargets(w, f);
    forall j | 0 <= j < |assigns|
      ensures Above(m, assigns[j]) && Crosses(m, w.input, w.output, assigns[j])
    {
      SkidAbove(m, w, f, j);
    }
    StageLayered(id, payload, m, w, assigns, []);
  }

  lemma SkidHandshakeAbove(m: Module, f: SkidNet)
    requires SkidEmitted(m, f) && IsInput(m, f.input.valid) && IsInput(m, f.output.ready)
    requires IsOutput(m, f.input.ready) && IsOutput(m, f.output.valid)
    ensures Above(m, SkidHandshake(f)[0]) && Crosses(m, f.input, f.output, SkidHandshake(f)[0])
    ensures Above(m, SkidHandshake(f)[1]) && Crosses(m, f.input, f.output, SkidHandshake(f)[1])
    ensures KindRank(m, f.full) == 0 && !IsInput(m, f.full)
  {
    assert ExprDeps(Not(Ref(f.full))) == [f.full];
    assert ExprDeps(Or(Not(Ref(f.full)), Ref(f.output.ready))) == [f.full] + [f.output.ready];
    assert ExprDeps(Or(Ref(f.full), Ref(f.input.valid))) == [f.full] + [f.input.valid];
  }

  lemma SkidParts(m: Module, w: Match, f: SkidNet)
    requires HasSkid(m, f) && f.fields == w.fields && f.input == w.input && f.output == w.output
    ensures SkidEmitted(m, f) && AllHeld(m, f, w, f.held)
  {
  }

  // ------------------------------------------------------------ wire modules

  lemma WiresAbove(m: Module, w: Match, j: nat)
    requires |w.fields| <= |w.input.bits| && |w.fields| <= |w.output.bits| && j < |ConnectAssigns(w)|
    requires IsInput(m, w.input.valid) && IsInput(m, w.output.ready)
    requires IsOutput(m, w.input.ready) && IsOutput(m, w.output.valid)
    requires forall k | 0 <= k < |w.fields| ::
               IsInput(m, BitAt(w.input, k)) && IsOutput(m, BitAt(w.output, k))
    ensures
      var a := ConnectAssigns(w)[j];
      Above(m, a) && Crosses(m, w.input, w.output, a)
  {
    if j >= 2 {
      var k := j - 2;
      assert ConnectAssigns(w)[j] == BitAssigns(w, |w.fields|)[k];
      RefAbove(m, w, BitAt(w.output, k), BitAt(w.input, k));
    } else if j == 0 {
      RefAbove(m, w, w.output.valid, w.input.valid);
    } else {
      RefAbove(m, w, w.input.ready, w.output.ready);
    }
  }

  lemma RefAbove(m: Module, w: Match, x: Signal, y: Signal)
    requires IsOutput(m, x) && IsInput(m, y)
    requires (x == w.input.ready && y == w.output.ready) || (Carries(w.output, x) && Carries(w.input, y))
    ensures Above(m, Assignment(x, Ref(y))) && Crosses(m, w.input, w.output, Assignment(x, Ref(y)))
  {
    assert ExprDeps(Ref(y)) == [y];
  }

  lemma WiresTargets(w: Match)
    ensures StageTargets(w, ConnectAssigns(w), [])
  {
    forall k | 0 <= k < |w.fields|
      ensures ConnectAssigns(w)[2 + k].dst == BitAt(w.output, k)
    {
      assert ConnectAssigns(w)[2 + k] == BitAssigns(w, |w.fields|)[k];
    }
  }

  lemma WiresLayered(id: nat, payload: Payload, m: Module, w: Match)
    requires OnShell(id, payload, w) && Emitted(Shell(id, payload), m, ConnectAssigns(w))
    ensures Flows(m, w.input, w.output) && Settleable(Alone(m))
  {
    ChannelKinds(id, payload, m, w, ConnectAssigns(w));
    WiresTargets(w);
    forall j | 0 <= j < |ConnectAssigns(w)|
      ensures Above(m, ConnectAssigns(w)[j]) && Crosses(m, w.input, w.output, ConnectAssigns(w)[j])
    {
      WiresAbove(m, w, j);
    }
    StageLayered(id, payload, m, w, ConnectAssigns(w), []);
  }

  // --------------------------------------------------------------------- runs

  /** The module is a shell with this stage between its channels: its only ports
      are the shell's, and what crosses it in a cycle is data forward and readiness
      back. */
  predicate IsStage(id: nat, payload: Payload, m: Module, n: StageNet) {
    var i, o := Accepting(id, payload), Offering(id, payload);
    && MatchPayloads(i, o).Matched?
    && Emitted(Shell(id, payload), m, m.assignments)
    && n.Input() == MatchPayloads(i, o).m.input && n.Output() == o.channel
    && n.ResetSignal() == ResetOf(id)
    && HasStage(m, n) && Flows(m, n.Input(), n.Output())
  }

  /** The module is the stage and nothing else, it settles, and on every run it
      shows and steps the stage's queue. */
  ghost predicate Refines(m: Module, n: StageNet) {
    && Settleable(Alone(m)) && HasStage(m, n)
    && forall events | External(Alone(m), events) :: RunRefines(m, n, events)
  }

  ghost predicate RunRefines(m: Module, n: StageNet, events: seq<Event>) {
    var trace := TraceOf(Alone(m), events, [], n);
    IsTrace(n.Kind(), trace) && Holds(Alone(m), events, [], n, QueueAfter([], trace))
  }

  lemma StageRefines(m: Module, n: StageNet)
    requires Settleable(Alone(m)) && HasStage(m, n) && m.initialRegisters == []
    ensures Refines(m, n)
  {
    forall events | External(Alone(m), events)
      ensures RunRefines(m, n, events)
    {
      StageRun(Alone(m), events, [], n);
    }
  }

  lemma StageMade(id: nat, payload: Payload, m: Module, n: StageNet, w: Match, assigns: seq<Assignment>)
    requires MatchPayloads(Accepting(id, payload), Offering(id, payload)) == Matched(w)
    requires Emitted(Shell(id, payload), m, assigns)
    requires n.Input() == w.input && n.Output() == w.output && n.ResetSignal() == ResetOf(id)
    requires HasStage(m, n) && Flows(m, w.input, w.output) && Settleable(Alone(m))
    ensures Refines(m, n) && IsStage(id, payload, m, n)
  {
    assert m.assignments == assigns;
    StageRefines(m, n);
  }

  lemma FifoMade(id: nat, payload: Payload, m: Module, w: Match, f: FifoNet)
    requires MatchPayloads(Accepting(id, payload), Offering(id, payload)) == Matched(w)
    requires f.c.input == w.input && f.c.output == w.output && f.c.reset == ResetOf(id)
    requires HasFifo(m, f) && f.fields == w.fields && |f.data| == |w.fields| && Square(f.c, f.data)
    requires Emitted(Shell(id, payload), m, FifoAssigns(f.c, w, f.data))
    ensures Refines(m, FifoStage(f)) && IsStage(id, payload, m, FifoStage(f))
  {
    MatchOnShell(id, payload);
    FifoParts(m, w, f);
    FifoLayered(id, payload, m, w, f.c, f.data);
    StageMade(id, payload, m, FifoStage(f), w, FifoAssigns(f.c, w, f.data));
  }

  lemma MemFifoMade(id: nat, payload: Payload, m: Module, w: Match, f: MemFifoNet)
    requires MatchPayloads(Accepting(id, payload), Offering(id, payload)) == Matched(w)
    requires f.c.input == w.input && f.c.output == w.output && f.c.reset == ResetOf(id)
    requires HasMemFifo(m, f) && f.fields == w.fields
    requires Emitted(Shell(id, payload), m, MemFifoAssigns(w, f))
    requires ReadWireAt(f, |Shell(id, payload).signals|, m)
    ensures Refines(m, MemStage(f)) && IsStage(id, payload, m, MemStage(f))
  {
    MatchOnShell(id, payload);
    MemFifoLayered(id, payload, m, w, f);
    StageMade(id, payload, m, MemStage(f), w, MemFifoAssigns(w, f));
  }

  lemma SkidMade(id: nat, payload: Payload, m: Module, w: Match, f: SkidNet)
    requires MatchPayloads(Accepting(id, payload), Offering(id, payload)) == Matched(w)
    requires f.input == w.input && f.output == w.output && f.reset == ResetOf(id)
    requires HasSkid(m, f) && f.fields == w.fields
    requires Emitted(Shell(id, payload), m, SkidAssigns(f, w, f.held))
    ensures Refines(m, SkidStage(f)) && IsStage(id, payload, m, SkidStage(f))
  {
    MatchOnShell(id, payload);
    SkidParts(m, w, f);
    SkidLayered(id, payload, m, w, f);
    StageMade(id, payload, m, SkidStage(f), w, SkidAssigns(f, w, f.held));
  }

  lemma WiresMade(id: nat, payload: Payload, m: Module, w: Match, f: WiresNet)
    requires MatchPayloads(Accepting(id, payload), Offering(id, payload)) == Matched(w)
    requires f.input == w.input && f.output == w.output && HasWires(m, f)
    requires Emitted(Shell(id, payload), m, ConnectAssigns(w))
    ensures
      var n := WireStage(f, ClockOf(id), ResetOf(id));
      Refines(m, n) && IsStage(id, payload, m, n)
  {
    MatchOnShell(id, payload);
    WiresLayered(id, payload, m, w);
    StageMade(id, payload, m, WireStage(f, ClockOf(id), ResetOf(id)), w, ConnectAssigns(w));
  }

  /** A module with one register FIFO. */
  method FifoModule(id: nat, payload: Payload, depth: nat) returns (m: Module, net: Option<FifoNet>)
    ensures net.Some? <==> FifoAccepted(Accepting(id, payload), Offering(id, payload), depth)
    ensures net.Some? ==>
              && net.value.c.depth == depth && Refines(m, FifoStage(net.value))
              && IsStage(id, payload, m, FifoStage(net.value))
  {
    var b := BuildShell(id, payload);
    ShellEnds(id, payload);
    net := b.RvFifo(Accepting(id, payload), Offering(id, payload), ClockOf(id), ResetOf(id), depth);
    m := b.Built();
    if net.Some? {
      var w := MatchPayloads(Accepting(id, payload), Offering(id, payload)).m;
      FifoMade(id, payload, m, w, net.value);
    }
  }

  /** A module with one memory FIFO; the payload has to have a field and fit a
      machine word. */
  method MemFifoModule(id: nat, payload: Payload, depth: nat) returns (m: Module, net: Option<MemFifoNet>)
    ensures net.Some? <==> FifoAccepted(Accepting(id, payload), Offering(id, payload), depth)
    ensures net.Some? && Storable(MatchPayloads(Accepting(id, payload), Offering(id, payload)).m) ==>
              && net.value.c.depth == depth && Refines(m, MemStage(net.value))
              && IsStage(id, payload, m, MemStage(net.value))
  {
    var b := BuildShell(id, payload);
    ShellEnds(id, payload);
    net := b.RvMemFifo(Accepting(id, payload), Offering(id, payload), ClockOf(id), ResetOf(id), depth);
    m := b.Built();
    if net.Some? && Storable(MatchPayloads(Accepting(id, payload), Offering(id, payload)).m) {
      var w := MatchPayloads(Accepting(id, payload), Offering(id, payload)).m;
      MemFifoMade(id, payload, m, w, net.value);
    }
  }

  /** A module with one skid buffer. */
  method SkidModule(id: nat, payload: Payload) returns (m: Module, net: Option<SkidNet>)
    ensures net.Some? <==> EndsAccepted(Accepting(id, payload), Offering(id, payload))
    ensures net.Some? ==> Refines(m, SkidStage(net.value)) && IsStage(id, payload, m, SkidStage(net.value))
  {
    var b := BuildShell(id, payload);
    ShellEnds(id, payload);
    net := b.RvSkidBuffer(Accepting(id, payload), Offering(id, payload), ClockOf(id), ResetOf(id));
    m := b.Built();
    if net.Some? {
      var w := MatchPayloads(Accepting(id, payload), Offering(id, payload)).m;
      SkidMade(id, payload, m, w, net.value);
    }
  }

  /** A module that connects its channels straight through. */
  method WiresModule(id: nat, payload: Payload) returns (m: Module, net: Option<WiresNet>)
    ensures net.Some? <==> EndsAccepted(Accepting(id, payload), Offering(id, payload))
    ensures net.Some? ==>
              && Refines(m, WireStage(net.value, ClockOf(id), ResetOf(id)))
              && IsStage(id, payload, m, WireStage(net.value, ClockOf(id), ResetOf(id)))
  {
    var b := BuildShell(id, payload);
    ShellEnds(id, payload);
    net := b.RvConnect(Accepting(id, payload), Offering(id, payload));
    m := b.Built();
    if net.Some? {
      var w := MatchPayloads(Accepting(id, payload), Offering(id, payload)).m;
      WiresMade(id, payload, m, w, net.value);
    }
  }
}
