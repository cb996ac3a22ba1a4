/** The parent that chains any list of stage modules over one payload, signal by
    signal: it is well formed, it settles, and it conserves the payloads on every
    run that leaves reset low. */
module Assembly {
  import opened Words
  import opened Rtl
  import opened Semantics
  import opened Simulation
  import opened Depends
  import opened Settling
  import opened Bound
  import opened Range
  import opened ReadyValid
  import opened Emission
  import opened Builder
  import opened Stages
  import opened Streams
  import opened Runs
  import opened StageModules
  import opened Pipeline
  import opened Series
  import Fixpoint

  // ------------------------------------------------------------ where things lie

  /** Signals of one channel. */
  function Stride(tys: seq<BitType>): (s: nat)
    ensures s == |tys| + 2
  {
    |tys| + 2
  }

  /** Position j of channel q among the signals of a module that starts with its
      clock and its reset. */
  function Slot(tys: seq<BitType>, q: nat, j: nat): (i: nat)
    ensures i == 2 + q * Stride(tys) + j >= 2
  {
    2 + q * Stride(tys) + j
  }

  lemma SlotParts(tys: seq<BitType>, q: nat, j: nat)
    requires j < Stride(tys)
    ensures (Slot(tys, q, j) - 2) / Stride(tys) == q && (Slot(tys, q, j) - 2) % Stride(tys) == j
  {
    DivModUnique(Slot(tys, q, j) - 2, Stride(tys), q, j);
  }

  function TypeAt(tys: seq<BitType>, j: nat): BitType
    requires j < Stride(tys)
  {
    if j < 2 then UInt(1) else tys[j - 2]
  }

  /** Of channels 0 to n the first is accepting, the last offering, and those
      between are wires; position 1 is readiness. */
  function KindAt(n: nat, q: nat, j: nat): SignalKind {
    if j == 1 then (if q == 0 then Output else if q == n then Input else Wire)
    else if q == 0 then Input
    else if q == n then Output
    else Wire
  }

  function SignalAt(tys: seq<BitType>, n: nat, i: nat): SignalInfo {
    if i < 2 then SignalInfo(UInt(1), Input)
    else
      var q, j := (i - 2) / Stride(tys), (i - 2) % Stride(tys);
      SignalInfo(TypeAt(tys, j), KindAt(n, q, j))
  }

  lemma SlotSignal(tys: seq<BitType>, n: nat, q: nat, j: nat)
    requires j < Stride(tys)
    ensures SignalAt(tys, n, Slot(tys, q, j)) == SignalInfo(TypeAt(tys, j), KindAt(n, q, j))
  {
    SlotParts(tys, q, j);
  }

  /** A stage module's shell is such a module with channels 0 and 1. */
  lemma ShellAt(id: nat, payload: Payload, p: nat)
    requires p < |Shell(id, payload).signals|
    ensures |Shell(id, payload).signals| == Slot(PayloadTypes(payload), 2, 0)
    ensures Shell(id, payload).signals[p] == SignalAt(PayloadTypes(payload), 1, p)
  {
    ShellSignals(id, payload);
    ShellSlots(PayloadTypes(payload));
    PortsAreSlots(Shell(id, payload).signals, PayloadTypes(payload), p);
  }

  lemma PortsAreSlots(infos: seq<SignalInfo>, tys: seq<BitType>, p: nat)
    requires p < |infos| == Slot(tys, 2, 0)
    requires infos[0] == infos[1] == SignalInfo(UInt(1), Input)
    requires PortsAt(infos, Slot(tys, 0, 0), tys, Input, Output)
    requires PortsAt(infos, Slot(tys, 1, 0), tys, Output, Input)
    ensures infos[p] == SignalAt(tys, 1, p)
  {
    if p >= 2 {
      var q := if p < Slot(tys, 1, 0) then 0 else 1;
      PortSlot(infos, tys, q, p - Slot(tys, q, 0));
    }
  }

  lemma ShellSlots(tys: seq<BitType>)
    ensures Slot(tys, 0, 0) == 2 && Slot(tys, 1, 0) == 4 + |tys| && Slot(tys, 2, 0) == 6 + |tys| + |tys|
  {
  }

  lemma PortSlot(infos: seq<SignalInfo>, tys: seq<BitType>, q: nat, j: nat)
    requires j < Stride(tys)
    requires PortsAt(infos, Slot(tys, q, 0), tys, KindAt(1, q, 0), KindAt(1, q, 1))
    ensures Slot(tys, q, j) == Slot(tys, q, 0) + j < |infos|
    ensures infos[Slot(tys, q, 0) + j] == SignalAt(tys, 1, Slot(tys, q, j))
  {
    SlotSignal(tys, 1, q, j);
    var base := Slot(tys, q, 0);
    if j >= 2 {
      assert infos[base + 2 + (j - 2)] == SignalInfo(tys[j - 2], KindAt(1, q, 0));
    }
  }

  /** The handle in a shell, or in the parent, of position j of channel q. */
  lemma ChannelSlots(id: nat, tys: seq<BitType>, q: nat, j: nat)
    requires j < |tys|
    ensures
      var c := ChannelAt(id, Slot(tys, q, 0), |tys|);
      && c.valid == Signal(id, Slot(tys, q, 0)) && c.ready == Signal(id, Slot(tys, q, 1))
      && c.bits[j] == Signal(id, Slot(tys, q, 2 + j))
  {
  }

  // ------------------------------------------------------------- the parent

  /** Clock, reset, and the channels before, between and after n stages. */
  function Top(id: nat, tys: seq<BitType>, n: nat): Module {
    Module(id, seq(Slot(tys, n + 1, 0), i requires 0 <= i < Slot(tys, n + 1, 0) => SignalAt(tys, n, i)),
           [], [], [], [])
  }

  /** Where the parent's signal for port p of stage k lies: clock and reset are
      shared, and stage k lies between channels k and k + 1. */
  function Raised(tys: seq<BitType>, k: nat, p: nat): nat {
    if p < 2 then p else p + k * Stride(tys)
  }

  lemma RaisedSlot(tys: seq<BitType>, k: nat, q: nat, j: nat)
    ensures Raised(tys, k, Slot(tys, q, j)) == Slot(tys, q + k, j)
  {
  }

  lemma SlotOf(tys: seq<BitType>, p: nat) returns (q: nat, j: nat)
    requires 2 <= p < Slot(tys, 2, 0)
    ensures q < 2 && j < Stride(tys) && p == Slot(tys, q, j)
  {
    q := if p < Slot(tys, 1, 0) then 0 else 1;
    j := p - Slot(tys, q, 0);
  }

  /** The ports of one direction among the first n signals. */
  function PortIds(infos: seq<SignalInfo>, kind: SignalKind, n: nat): (ids: seq<nat>)
    requires n <= |infos|
    ensures forall k | 0 <= k < |ids| :: ids[k] < n
  {
    if n == 0 then []
    else PortIds(infos, kind, n - 1) + if infos[n - 1].kind == kind then [n - 1] else []
  }

  lemma {:induction false} PortIdsAre(infos: seq<SignalInfo>, kind: SignalKind, n: nat, p: nat)
    requires n <= |infos|
    ensures p in PortIds(infos, kind, n) <==> p < n && infos[p].kind == kind
  {
    if n > 0 {
      PortIdsAre(infos, kind, n - 1, p);
    }
  }

  lemma {:induction false} PortIdsApart(infos: seq<SignalInfo>, kind: SignalKind, n: nat, i: nat, j: nat)
    requires n <= |infos| && i < j < |PortIds(infos, kind, n)|
    ensures PortIds(infos, kind, n)[i] != PortIds(infos, kind, n)[j]
  {
    if j < |PortIds(infos, kind, n - 1)| {
      PortIdsApart(infos, kind, n - 1, i, j);
    }
  }

  function Wiring(child: nat, id: nat, tys: seq<BitType>, k: nat, ports: seq<nat>): (conns: seq<Conn>)
    ensures |conns| == |ports|
    ensures forall i | 0 <= i < |conns| :: conns[i] == WireTo(child, id, tys, k, ports[i])
  {
    seq(|ports|, i requires 0 <= i < |ports| => WireTo(child, id, tys, k, ports[i]))
  }

  function WireTo(child: nat, id: nat, tys: seq<BitType>, k: nat, p: nat): Conn {
    Conn(Signal(child, p), Signal(id, Raised(tys, k, p)))
  }

  /** The ports of one direction of every stage module over the payload. */
  function StagePorts(payload: Payload, kind: SignalKind): seq<nat> {
    var infos := Shell(0, payload).signals;
    PortIds(infos, kind, |infos|)
  }

  function StageInstance(id: nat, payload: Payload, m: Module, k: nat): Instance {
    Instance(Alone(m),
             Wiring(m.id, id, PayloadTypes(payload), k, StagePorts(payload, Input)),
             Wiring(m.id, id, PayloadTypes(payload), k, StagePorts(payload, Output)))
  }

  /** The stages one after another. */
  function SeriesTree(id: nat, payload: Payload, mods: seq<Module>): Tree {
    Tree(Top(id, PayloadTypes(payload), |mods|),
         seq(|mods|, k requires 0 <= k < |mods| => StageInstance(id, payload, mods[k], k)))
  }

  // -------------------------------------------------------------- connections

  /** Port p of a stage has this direction. */
  predicate PortIs(tys: seq<BitType>, kind: SignalKind, p: nat) {
    p < Slot(tys, 2, 0) && SignalAt(tys, 1, p).kind == kind
  }

  lemma StagePort(payload: Payload, kind: SignalKind, p: nat)
    ensures p in StagePorts(payload, kind) <==> PortIs(PayloadTypes(payload), kind, p)
  {
    var infos := Shell(0, payload).signals;
    PortIdsAre(infos, kind, |infos|, p);
    ShellSignals(0, payload);
    ShellSlots(PayloadTypes(payload));
    if p < |infos| {
      ShellAt(0, payload, p);
    }
  }

  /** Every connection is a wire to a port of its direction. */
  lemma ConnIs(child: nat, id: nat, payload: Payload, k: nat, kind: SignalKind, c: Conn)
    requires c in Wiring(child, id, PayloadTypes(payload), k, StagePorts(payload, kind))
    ensures PortIs(PayloadTypes(payload), kind, c.port.id)
    ensures c == WireTo(child, id, PayloadTypes(payload), k, c.port.id)
  {
    var ports := StagePorts(payload, kind);
    var conns := Wiring(child, id, PayloadTypes(payload), k, ports);
    var i :| 0 <= i < |conns| && conns[i] == c;
    assert ports[i] in ports;
    StagePort(payload, kind, ports[i]);
  }

  /** And every port is wired. */
  lemma ConnOf(child: nat, id: nat, payload: Payload, k: nat, kind: SignalKind, p: nat)
    requires PortIs(PayloadTypes(payload), kind, p)
    ensures WireTo(child, id, PayloadTypes(payload), k, p)
            in Wiring(child, id, PayloadTypes(payload), k, StagePorts(payload, kind))
  {
    var ports := StagePorts(payload, kind);
    StagePort(payload, kind, p);
    var i :| 0 <= i < |ports| && ports[i] == p;
    assert Wiring(child, id, PayloadTypes(payload), k, ports)[i] == WireTo(child, id, PayloadTypes(payload), k, p);
  }

  /** Inputs are clock, reset, incoming data and outgoing readiness. */
  lemma InputSlot(tys: seq<BitType>, q: nat, j: nat)
    requires q < 2 && j < Stride(tys)
    ensures PortIs(tys, Input, Slot(tys, q, j)) <==> (q == 0 <==> j != 1)
    ensures PortIs(tys, Output, Slot(tys, q, j)) <==> (q == 0 <==> j == 1)
  {
    SlotSignal(tys, 1, q, j);
    SlotInside(tys, q, j, 2);
  }

  lemma SlotInside(tys: seq<BitType>, q: nat, j: nat, n: nat)
    requires j < Stride(tys) && q < n
    ensures Slot(tys, q, j) < Slot(tys, n, 0)
  {
    assert (q + 1) * Stride(tys) <= n * Stride(tys);
  }

  /** The parent's signal of port j of channel q of stage k. */
  lemma RaisedSignal(id: nat, tys: seq<BitType>, n: nat, k: nat, q: nat, j: nat)
    requires q < 2 && j < Stride(tys) && k < n
    ensures Raised(tys, k, Slot(tys, q, j)) < |Top(id, tys, n).signals|
    ensures Top(id, tys, n).signals[Raised(tys, k, Slot(tys, q, j))]
         == SignalInfo(TypeAt(tys, j), KindAt(n, q + k, j))
  {
    RaisedSlot(tys, k, q, j);
    SlotInside(tys, q + k, j, n + 1);
    SlotSignal(tys, n, q + k, j);
  }

  lemma SharedSignal(id: nat, tys: seq<BitType>, n: nat, k: nat, p: nat)
    requires p < 2
    ensures Raised(tys, k, p) == p < |Top(id, tys, n).signals|
    ensures Top(id, tys, n).signals[p] == SignalInfo(UInt(1), Input)
  {
  }

  // ------------------------------------------------------- the parent is sane

  /** A stage module has the shell's ports and no others. */
  lemma StageSignal(payload: Payload, m: Module, p: nat)
    requires Emitted(Shell(m.id, payload), m, m.assignments) && p < |m.signals|
    ensures Slot(PayloadTypes(payload), 2, 0) <= |m.signals|
    ensures p < Slot(PayloadTypes(payload), 2, 0) ==> m.signals[p] == SignalAt(PayloadTypes(payload), 1, p)
    ensures p >= Slot(PayloadTypes(payload), 2, 0) ==> Plain(m.signals[p])
  {
    var shell := Shell(m.id, payload);
    ShellSignals(m.id, payload);
    ShellSlots(PayloadTypes(payload));
    if p < |shell.signals| {
      ShellAt(m.id, payload, p);
      assert m.signals[p] == shell.signals[p];
    }
  }

  /** A port and the signal of the parent it is wired to. */
  lemma PortMatches(id: nat, payload: Payload, n: nat, m: Module, k: nat, kind: SignalKind, p: nat)
    requires Emitted(Shell(m.id, payload), m, m.assignments) && k < n
    requires PortIs(PayloadTypes(payload), kind, p) && (kind == Input || kind == Output)
    ensures
      var top, up := Top(id, PayloadTypes(payload), n), Raised(PayloadTypes(payload), k, p);
      && p < |m.signals| && m.signals[p].kind == kind
      && up < |top.signals| && top.signals[up].ty == m.signals[p].ty
      && (kind == Output ==> top.signals[up].kind == Output || top.signals[up].kind == Wire)
  {
    var tys := PayloadTypes(payload);
    ShellSignals(m.id, payload);
    ShellSlots(tys);
    StageSignal(payload, m, p);
    if p < 2 {
      SharedSignal(id, tys, n, k, p);
    } else {
      var q, j := SlotOf(tys, p);
      RaisedSignal(id, tys, n, k, q, j);
      SlotSignal(tys, 1, q, j);
      InputSlot(tys, q, j);
    }
  }

  lemma InputsConnected(id: nat, payload: Payload, m: Module, k: nat, i: nat)
    requires Emitted(Shell(m.id, payload), m, m.assignments)
    requires i < |m.signals| && m.signals[i].kind.Input?
    ensures Connected(StageInstance(id, payload, m, k), m.Handle(i))
  {
    StageSignal(payload, m, i);
    ConnOf(m.id, id, payload, k, Input, i);
    var c := WireTo(m.id, id, PayloadTypes(payload), k, i);
    assert c in StageInstance(id, payload, m, k).inputs && c.port == m.Handle(i);
  }

  lemma StageConnections(id: nat, payload: Payload, n: nat, m: Module, k: nat)
    requires Emitted(Shell(m.id, payload), m, m.assignments) && k < n
    ensures ConnectionsOk(Top(id, PayloadTypes(payload), n), StageInstance(id, payload, m, k))
  {
    var inst, top := StageInstance(id, payload, m, k), Top(id, PayloadTypes(payload), n);
    forall c | c in inst.inputs
      ensures IsInput(m, c.port) && top.Owns(c.parent) && top.WidthOf(c.parent) == m.WidthOf(c.port)
    {
      ConnIs(m.id, id, payload, k, Input, c);
      PortMatches(id, payload, n, m, k, Input, c.port.id);
    }
    forall c | c in inst.outputs
      ensures IsOutput(m, c.port) && Drivable(top, c.parent) && top.WidthOf(c.parent) == m.WidthOf(c.port)
    {
      ConnIs(m.id, id, payload, k, Output, c);
      PortMatches(id, payload, n, m, k, Output, c.port.id);
    }
    forall i, j | 0 <= i < j < |inst.inputs|
      ensures inst.inputs[i].port != inst.inputs[j].port
    {
      var infos := Shell(0, payload).signals;
      PortIdsApart(infos, Input, |infos|, i, j);
    }
    forall i | 0 <= i < |m.signals| && m.signals[i].kind.Input?
      ensures Connected(inst, m.Handle(i))
    {
      InputsConnected(id, payload, m, k, i);
    }
  }

  /** No two output ports of the stages meet. */
  lemma RaisedApart(tys: seq<BitType>, k: nat, p: nat, l: nat, r: nat)
    requires PortIs(tys, Output, p) && PortIs(tys, Output, r)
    requires Raised(tys, k, p) == Raised(tys, l, r)
    ensures k == l && p == r
  {
    var q, j := SlotOf(tys, p);
    var u, v := SlotOf(tys, r);
    InputSlot(tys, q, j);
    InputSlot(tys, u, v);
    RaisedSlot(tys, k, q, j);
    RaisedSlot(tys, l, u, v);
    SlotParts(tys, q + k, j);
    SlotParts(tys, u + l, v);
  }

  lemma SeriesOneDriver(id: nat, payload: Payload, mods: seq<Module>)
    ensures OneDriver(SeriesTree(id, payload, mods))
  {
    var t, tys := SeriesTree(id, payload, mods), PayloadTypes(payload);
    forall i, o, k | 0 <= i < |t.instances| && 0 <= o < k < |t.instances[i].outputs|
      ensures t.instances[i].outputs[o].parent != t.instances[i].outputs[k].parent
    {
      var infos := Shell(0, payload).signals;
      PortIdsApart(infos, Output, |infos|, o, k);
      var ports := StagePorts(payload, Output);
      assert ports[o] in ports && ports[k] in ports;
      StagePort(payload, Output, ports[o]);
      StagePort(payload, Output, ports[k]);
      if Raised(tys, i, ports[o]) == Raised(tys, i, ports[k]) {
        RaisedApart(tys, i, ports[o], i, ports[k]);
      }
    }
    forall i, n, oc, nc | 0 <= i < n < |t.instances|
                          && oc in t.instances[i].outputs && nc in t.instances[n].outputs
      ensures oc.parent != nc.parent
    {
      ConnIs(mods[i].id, id, payload, i, Output, oc);
      ConnIs(mods[n].id, id, payload, n, Output, nc);
      if oc.parent == nc.parent {
        RaisedApart(tys, i, oc.port.id, n, nc.port.id);
      }
    }
  }

  /** Every module of the list is a stage over the payload. */
  predicate AreStages(payload: Payload, mods: seq<Module>, nets: seq<StageNet>) {
    |mods| == |nets| > 0 && forall k | 0 <= k < |mods| :: IsStage(mods[k].id, payload, mods[k], nets[k])
  }

  lemma SeriesSane(id: nat, payload: Payload, mods: seq<Module>, nets: seq<StageNet>)
    requires AreStages(payload, mods, nets)
    ensures Sane(SeriesTree(id, payload, mods))
  {
    var t := SeriesTree(id, payload, mods);
    SeriesOneDriver(id, payload, mods);
    forall k | 0 <= k < |t.instances|
      ensures ConnectionsOk(t.m, t.instances[k]) && Sane(t.Child(k))
    {
      StageConnections(id, payload, |mods|, mods[k], k);
      LayeredPure(mods[k]);
    }
  }

  // --------------------------------------------------- the stages in series

  function HopOf(tys: seq<BitType>): Signal -> Hop {
    (x: Signal) =>
      if x.id < 2 then Aside
      else if (x.id - 2) % Stride(tys) == 1 then Ready((x.id - 2) / Stride(tys))
      else Data((x.id - 2) / Stride(tys))
  }

  lemma HopAt(tys: seq<BitType>, id: nat, q: nat, j: nat)
    requires j < Stride(tys)
    ensures HopOf(tys)(Signal(id, Slot(tys, q, j))) == if j == 1 then Ready(q) else Data(q)
  {
    SlotParts(tys, q, j);
  }

  lemma CarriedSlot(id: nat, tys: seq<BitType>, q: nat, x: Signal) returns (j: nat)
    requires Carries(ChannelAt(id, Slot(tys, q, 0), |tys|), x)
    ensures j < Stride(tys) && j != 1 && x == Signal(id, Slot(tys, q, j))
  {
    var c := ChannelAt(id, Slot(tys, q, 0), |tys|);
    if x == c.valid {
      j := 0;
    } else {
      var b :| 0 <= b < |c.bits| && c.bits[b] == x;
      j := 2 + b;
    }
  }

  /** A stage's channels are the shell's. */
  predicate OnSlots(tys: seq<BitType>, child: nat, i: Channel, o: Channel) {
    && i.valid == Signal(child, Slot(tys, 0, 0)) && i.ready == Signal(child, Slot(tys, 0, 1))
    && (forall k | 0 <= k < |i.bits| :: i.bits[k] in ChannelAt(child, Slot(tys, 0, 0), |tys|).bits)
    && o == ChannelAt(child, Slot(tys, 1, 0), |tys|)
  }

  lemma StageChannels(payload: Payload, m: Module, net: StageNet)
    requires IsStage(m.id, payload, m, net)
    ensures OnSlots(PayloadTypes(payload), m.id, net.Input(), net.Output())
  {
    MatchOnShell(m.id, payload);
    ShellSlots(PayloadTypes(payload));
  }

  /** Which ports carry what: channel 0 comes first, then channel 1. */
  lemma PortSides(tys: seq<BitType>, child: nat, i: Channel, o: Channel, x: Signal)
    requires OnSlots(tys, child, i, o)
    ensures Carries(i, x) ==> 2 <= x.id < Slot(tys, 1, 0)
    ensures x == i.ready ==> 2 <= x.id < Slot(tys, 1, 0)
    ensures Carries(o, x) ==> Slot(tys, 1, 0) <= x.id
    ensures x == o.ready ==> Slot(tys, 1, 0) <= x.id
  {
    if Carries(i, x) && x != i.valid {
      var j := CarriedSlot(child, tys, 0, x);
    }
    if Carries(o, x) {
      var j := CarriedSlot(child, tys, 1, x);
    }
  }

  /** Where the wire to a port of stage k lies. */
  lemma PortHop(tys: seq<BitType>, id: nat, k: nat, kind: SignalKind, p: nat)
    requires PortIs(tys, kind, p) && (kind == Input || kind == Output)
    ensures
      HopOf(tys)(Signal(id, Raised(tys, k, p)))
      == if p < 2 then Aside
         else if kind == Input then (if p < Slot(tys, 1, 0) then Data(k) else Ready(k + 1))
         else if p < Slot(tys, 1, 0) then Ready(k) else Data(k + 1)
    ensures kind == Output ==> p >= 2
  {
    if p >= 2 {
      var q, j := SlotOf(tys, p);
      InputSlot(tys, q, j);
      RaisedSlot(tys, k, q, j);
      HopAt(tys, id, q + k, j);
    }
  }

  lemma PortFeeds(tys: seq<BitType>, id: nat, child: nat, net: StageNet, k: nat, n: nat, p: nat)
    requires OnSlots(tys, child, net.Input(), net.Output()) && PortIs(tys, Input, p) && k < n
    ensures FeedsStage(WireTo(child, id, tys, k, p), net, k, n, HopOf(tys)(Signal(id, Raised(tys, k, p))))
  {
    PortSides(tys, child, net.Input(), net.Output(), Signal(child, p));
    PortHop(tys, id, k, Input, p);
  }

  lemma PortLeaves(tys: seq<BitType>, id: nat, child: nat, net: StageNet, k: nat, n: nat, p: nat)
    requires OnSlots(tys, child, net.Input(), net.Output()) && PortIs(tys, Output, p) && k < n
    ensures LeavesStage(WireTo(child, id, tys, k, p), net, k, n, HopOf(tys)(Signal(id, Raised(tys, k, p))))
  {
    PortSides(tys, child, net.Input(), net.Output(), Signal(child, p));
    PortHop(tys, id, k, Output, p);
  }

  lemma FeedsAt(id: nat, payload: Payload, m: Module, net: StageNet, k: nat, n: nat, c: Conn)
    requires IsStage(m.id, payload, m, net) && k < n
    requires c in StageInstance(id, payload, m, k).inputs
    ensures FeedsStage(c, net, k, n, HopOf(PayloadTypes(payload))(c.parent))
  {
    StageChannels(payload, m, net);
    ConnIs(m.id, id, payload, k, Input, c);
    PortFeeds(PayloadTypes(payload), id, m.id, net, k, n, c.port.id);
  }

  lemma LeavesAt(id: nat, payload: Payload, m: Module, net: StageNet, k: nat, n: nat, c: Conn)
    requires IsStage(m.id, payload, m, net) && k < n
    requires c in StageInstance(id, payload, m, k).outputs
    ensures LeavesStage(c, net, k, n, HopOf(PayloadTypes(payload))(c.parent))
  {
    StageChannels(payload, m, net);
    ConnIs(m.id, id, payload, k, Output, c);
    PortLeaves(PayloadTypes(payload), id, m.id, net, k, n, c.port.id);
  }

  lemma AssembledInSeries(id: nat, payload: Payload, mods: seq<Module>, nets: seq<StageNet>)
    requires AreStages(payload, mods, nets)
    ensures InSeries(SeriesTree(id, payload, mods), nets, HopOf(PayloadTypes(payload)))
  {
    var t := SeriesTree(id, payload, mods);
    TopPlain(id, PayloadTypes(payload), |mods|);
    forall k, c | 0 <= k < |nets| && c in t.instances[k].inputs
      ensures FeedsStage(c, nets[k], k, |nets|, HopOf(PayloadTypes(payload))(c.parent))
    {
      FeedsAt(id, payload, mods[k], nets[k], k, |nets|, c);
    }
    forall k, c | 0 <= k < |nets| && c in t.instances[k].outputs
      ensures LeavesStage(c, nets[k], k, |nets|, HopOf(PayloadTypes(payload))(c.parent))
    {
      LeavesAt(id, payload, mods[k], nets[k], k, |nets|, c);
    }
  }

  lemma TopPlain(id: nat, tys: seq<BitType>, n: nat)
    ensures forall i | 0 <= i < |Top(id, tys, n).signals| :: !HasAsync(Top(id, tys, n).signals[i])
  {
  }

  /** Any list of stages over any payload, chained: the design is well formed and
      settles. */
  lemma AssembledSettleable(id: nat, payload: Payload, mods: seq<Module>, nets: seq<StageNet>)
    requires AreStages(payload, mods, nets)
    ensures Settleable(SeriesTree(id, payload, mods))
  {
    SeriesSane(id, payload, mods, nets);
    AssembledInSeries(id, payload, mods, nets);
    SeriesSettleable(SeriesTree(id, payload, mods), nets, HopOf(PayloadTypes(payload)));
  }

  // ------------------------------------------------------------ the pipeline

  /** No two fields of the payload have one name. */
  predicate NamesApart(payload: Payload) {
    payload.Bundle? ==>
      forall i, j | 0 <= i < j < |payload.leaves| :: payload.leaves[i].path != payload.leaves[j].path
  }

  /** Then a stage takes the fields in the order its channels list them. */
  lemma InOrder(payload: Payload, m: Module, net: StageNet)
    requires IsStage(m.id, payload, m, net) && NamesApart(payload)
    ensures net.Input() == ChannelAt(m.id, Slot(PayloadTypes(payload), 0, 0), |PayloadTypes(payload)|)
  {
    ShellSlots(PayloadTypes(payload));
    MatchedInOrder(Accepting(m.id, payload), Offering(m.id, payload));
  }

  lemma MatchedInOrder(i: ReadyValidRef, o: ReadyValidRef)
    requires MatchPayloads(i, o).Matched? && i.payload == o.payload && NamesApart(i.payload)
    requires |i.channel.bits| == |PayloadTypes(i.payload)|
    ensures MatchPayloads(i, o).m.input == i.channel
  {
    if i.payload.Bundle? {
      var leaves, bits := i.payload.leaves, MatchPayloads(i, o).m.input.bits;
      NoMissing(leaves, leaves, |leaves|);
      forall k | 0 <= k < |leaves|
        ensures bits[k] == i.channel.bits[k]
      {
        OwnPlace(leaves, k);
      }
      assert bits == i.channel.bits;
    }
  }

  lemma OwnPlace(leaves: seq<Leaf>, k: nat)
    requires k < |leaves| && HasPath(leaves, leaves[k].path)
    requires forall i, j | 0 <= i < j < |leaves| :: leaves[i].path != leaves[j].path
    ensures PathIndex(leaves, leaves[k].path) == k
  {
  }

  lemma OwnPath(leaves: seq<Leaf>, k: nat)
    requires k < |leaves|
    ensures HasPath(leaves, leaves[k].path)
  {
  }

  lemma {:induction false} NothingMissing(leaves: seq<Leaf>, n: nat)
    requires n <= |leaves|
    ensures Missing(leaves, leaves, n) == [] && Extra(leaves, leaves, n) == []
  {
    if n > 0 {
      NothingMissing(leaves, n - 1);
      OwnPath(leaves, n - 1);
    }
  }

  lemma {:induction false} NothingMistyped(leaves: seq<Leaf>, n: nat)
    requires n <= |leaves|
    requires forall i, j | 0 <= i < j < |leaves| :: leaves[i].path != leaves[j].path
    ensures Mistyped(leaves, leaves, n) == []
  {
    if n > 0 {
      NothingMistyped(leaves, n - 1);
      OwnPath(leaves, n - 1);
      OwnPlace(leaves, n - 1);
    }
  }

  /** Such a payload matches itself, so a FIFO module is refused only for its depth
      and a skid or wire module never. */
  lemma OwnPayload(id: nat, payload: Payload)
    requires NamesApart(payload)
    ensures EndsAccepted(Accepting(id, payload), Offering(id, payload))
  {
    if payload.Bundle? {
      NothingMissing(payload.leaves, |payload.leaves|);
      NothingMistyped(payload.leaves, |payload.leaves|);
    }
  }

  function Links(id: nat, tys: seq<BitType>, n: nat): (links: seq<Channel>)
    requires n > 0
    ensures |links| == n - 1
  {
    seq(n - 1, k requires 0 <= k < n - 1 => ChannelAt(id, Slot(tys, k + 1, 0), |tys|))
  }

  function Slots(n: nat): (slots: seq<nat>)
    ensures |slots| == n && forall k | 0 <= k < n :: slots[k] == k
  {
    seq(n, k requires 0 <= k < n => k)
  }

  function SeriesChain(id: nat, payload: Payload, nets: seq<StageNet>): Chain
    requires |nets| > 0
  {
    Chain(Slots(|nets|), nets, Links(id, PayloadTypes(payload), |nets|))
  }

  /** Position j of channel k + 1 joins stage k to stage k + 1, with data going
      forward. */
  lemma DataLink(id: nat, payload: Payload, mods: seq<Module>, k: nat, j: nat)
    requires k + 1 < |mods| && j < Stride(PayloadTypes(payload)) && j != 1
    ensures
      var tys := PayloadTypes(payload);
      Link(SeriesTree(id, payload, mods), k, Signal(mods[k].id, Slot(tys, 1, j)),
           k + 1, Signal(mods[k + 1].id, Slot(tys, 0, j)), Signal(id, Slot(tys, k + 1, j)))
  {
    var tys := PayloadTypes(payload);
    InputSlot(tys, 1, j);
    InputSlot(tys, 0, j);
    RaisedSlot(tys, k, 1, j);
    RaisedSlot(tys, k + 1, 0, j);
    ConnOf(mods[k].id, id, payload, k, Output, Slot(tys, 1, j));
    ConnOf(mods[k + 1].id, id, payload, k + 1, Input, Slot(tys, 0, j));
  }

  lemma ReadyLink(id: nat, payload: Payload, mods: seq<Module>, k: nat)
    requires k + 1 < |mods|
    ensures
      var tys := PayloadTypes(payload);
      Link(SeriesTree(id, payload, mods), k + 1, Signal(mods[k + 1].id, Slot(tys, 0, 1)),
           k, Signal(mods[k].id, Slot(tys, 1, 1)), Signal(id, Slot(tys, k + 1, 1)))
  {
    var tys := PayloadTypes(payload);
    InputSlot(tys, 1, 1);
    InputSlot(tys, 0, 1);
    RaisedSlot(tys, k, 1, 1);
    RaisedSlot(tys, k + 1, 0, 1);
    ConnOf(mods[k].id, id, payload, k, Input, Slot(tys, 1, 1));
    ConnOf(mods[k + 1].id, id, payload, k + 1, Output, Slot(tys, 0, 1));
  }

  lemma StagesFeed(id: nat, payload: Payload, mods: seq<Module>, nets: seq<StageNet>, k: nat)
    requires AreStages(payload, mods, nets) && NamesApart(payload) && k + 1 < |mods|
    ensures
      var tys := PayloadTypes(payload);
      Feeds(SeriesTree(id, payload, mods), k, nets[k], k + 1, nets[k + 1], ChannelAt(id, Slot(tys, k + 1, 0), |tys|))
  {
    var tys := PayloadTypes(payload);
    StageChannels(payload, mods[k], nets[k]);
    InOrder(payload, mods[k + 1], nets[k + 1]);
    ChannelsFeed(id, payload, mods, k, nets[k], nets[k + 1]);
  }

  lemma ChannelsFeed(id: nat, payload: Payload, mods: seq<Module>, k: nat, a: StageNet, b: StageNet)
    requires k + 1 < |mods|
    requires
      var tys := PayloadTypes(payload);
      && a.Output() == ChannelAt(mods[k].id, Slot(tys, 1, 0), |tys|)
      && b.Input() == ChannelAt(mods[k + 1].id, Slot(tys, 0, 0), |tys|)
    ensures
      var tys := PayloadTypes(payload);
      Feeds(SeriesTree(id, payload, mods), k, a, k + 1, b, ChannelAt(id, Slot(tys, k + 1, 0), |tys|))
  {
    var tys, t := PayloadTypes(payload), SeriesTree(id, payload, mods);
    DataLink(id, payload, mods, k, 0);
    ReadyLink(id, payload, mods, k);
    forall j | 0 <= j < |tys|
      ensures Link(t, k, a.Output().bits[j], k + 1, b.Input().bits[j], ChannelAt(id, Slot(tys, k + 1, 0), |tys|).bits[j])
    {
      DataLink(id, payload, mods, k, 2 + j);
      ChannelSlots(mods[k].id, tys, 1, j);
      ChannelSlots(mods[k + 1].id, tys, 0, j);
      ChannelSlots(id, tys, k + 1, j);
    }
  }

  lemma StageAt(id: nat, payload: Payload, mods: seq<Module>, nets: seq<StageNet>, k: nat)
    requires AreStages(payload, mods, nets) && k < |mods|
    ensures StageThere(SeriesTree(id, payload, mods), SeriesChain(id, payload, nets), k)
  {
    assert IsStage(mods[k].id, payload, mods[k], nets[k]);
  }

  predicate StageThere(t: Tree, c: Chain, k: nat) {
    && k < |t.instances| && k < |c.nets|
    && HasStage(t.Child(k).m, c.nets[k]) && NoInitial(t.Child(k).m, c.nets[k])
  }

  predicate LinkThere(t: Tree, c: Chain, k: nat) {
    && k + 1 < |t.instances| && k + 1 < |c.nets| && k < |c.links|
    && Feeds(t, k, c.nets[k], k + 1, c.nets[k + 1], c.links[k])
  }

  lemma ChainLink(id: nat, payload: Payload, nets: seq<StageNet>, k: nat)
    requires k + 1 < |nets|
    ensures
      var c, tys := SeriesChain(id, payload, nets), PayloadTypes(payload);
      && c.nets == nets && k < |c.links|
      && c.links[k] == ChannelAt(id, Slot(tys, k + 1, 0), |tys|)
  {
  }

  lemma LinkIs(t: Tree, c: Chain, nets: seq<StageNet>, k: nat, w: Channel)
    requires k + 1 < |t.instances| && k + 1 < |nets| && c.nets == nets && k < |c.links| && c.links[k] == w
    requires Feeds(t, k, nets[k], k + 1, nets[k + 1], w)
    ensures LinkThere(t, c, k)
  {
  }

  lemma LinkAt(id: nat, payload: Payload, mods: seq<Module>, nets: seq<StageNet>, k: nat)
    requires AreStages(payload, mods, nets) && NamesApart(payload) && k + 1 < |mods|
    ensures LinkThere(SeriesTree(id, payload, mods), SeriesChain(id, payload, nets), k)
  {
    var tys := PayloadTypes(payload);
    StagesFeed(id, payload, mods, nets, k);
    ChainLink(id, payload, nets, k);
    LinkIs(SeriesTree(id, payload, mods), SeriesChain(id, payload, nets), nets, k,
           ChannelAt(id, Slot(tys, k + 1, 0), |tys|));
  }

  lemma AssembledPipeline(id: nat, payload: Payload, mods: seq<Module>, nets: seq<StageNet>)
    requires AreStages(payload, mods, nets) && NamesApart(payload)
    ensures IsPipeline(SeriesTree(id, payload, mods), SeriesChain(id, payload, nets))
  {
    var t, c := SeriesTree(id, payload, mods), SeriesChain(id, payload, nets);
    forall k | 0 <= k < |c.nets|
      ensures StageThere(t, c, k)
    {
      StageAt(id, payload, mods, nets, k);
    }
    forall k | 0 <= k < |c.links|
      ensures LinkThere(t, c, k)
    {
      LinkAt(id, payload, mods, nets, k);
    }
    ChainIs(t, c);
  }

  lemma ChainIs(t: Tree, c: Chain)
    requires |c.slots| == |c.nets| == |c.links| + 1
    requires forall k | 0 <= k < |c.slots| :: c.slots[k] == k
    requires forall k | 0 <= k < |c.nets| :: StageThere(t, c, k)
    requires forall k | 0 <= k < |c.links| :: LinkThere(t, c, k)
    ensures IsPipeline(t, c)
  {
    forall k | 0 <= k < |c.slots|
      ensures c.slots[k] < |t.instances| && HasStage(t.Child(c.slots[k]).m, c.nets[k])
      ensures NoInitial(t.Child(c.slots[k]).m, c.nets[k])
    {
      assert StageThere(t, c, k);
    }
    forall k | 0 <= k < |c.links|
      ensures Feeds(t, c.slots[k], c.nets[k], c.slots[k + 1], c.nets[k + 1], c.links[k])
    {
      assert LinkThere(t, c, k);
    }
  }

  // ------------------------------------------------------------ reset stays low

  /** The run sets the signal to nothing but 0. */
  predicate HeldLow(events: seq<Event>, x: Signal) {
    forall i | 0 <= i < |events| && events[i].SetTo? && events[i].signal == x :: events[i].value == 0
  }

  /** A call that does not set an input leaves it as it was. */
  lemma InputKept(t: Tree, s: State, e: Event, x: Signal)
    requires Fits(t, s) && Settleable(t) && Settled(t, s) && IsInput(t.m, x)
    requires e.SetTo? ==> IsInput(t.m, e.signal)
    ensures
      Get(Apply(t, s, e).Values(), x)
      == if e.SetTo? && e.signal == x then Masked(e.value, t.m.WidthOf(x)) else Get(s.Values(), x)
  {
    Fixpoint.InputsUndriven(t);
    match e
    case SetTo(y, value) =>
      Fixpoint.SettleStoresResets(t, s.WithValues(s.Values()[y := Masked(value, t.m.WidthOf(y))]));
    case Edge(edges) =>
      TickOfSettled(t, s, edges);
      Fixpoint.SettleStoresResets(t, Advance(t, s, edges));
  }

  lemma StartLow(t: Tree, x: Signal)
    requires Settleable(t) && IsInput(t.m, x) && t.m.initialRegisters == []
    ensures Get(Start(t).Values(), x) == 0
  {
    Fixpoint.InputsUndriven(t);
    Fixpoint.SettleStoresResets(t, InitialState(t));
    InitialZero(t.m, x);
  }

  lemma {:induction false} StaysLow(t: Tree, events: seq<Event>, x: Signal)
    requires Settleable(t) && External(t, events) && IsInput(t.m, x) && t.m.initialRegisters == []
    requires HeldLow(events, x)
    ensures Get(Run(t, Start(t), events).Values(), x) == 0
    decreases |events|
  {
    if events == [] {
      StartLow(t, x);
    } else {
      var before, e := events[..|events| - 1], events[|events| - 1];
      StaysLow(t, before, x);
      RunSettled(t, before);
      InputKept(t, Run(t, Start(t), before), e, x);
      LowSmall(0, t.m.WidthOf(x));
    }
  }

  /** A port wired to a signal at 0 is at 0. */
  lemma PortLow(t: Tree, s: State, k: nat, port: Signal, x: Signal)
    requires Fits(t, s) && Settled(t, s) && k < |t.instances| && Conn(port, x) in t.instances[k].inputs
    requires Get(s.Values(), x) == 0
    ensures Get(s.kids[k].Values(), port) == 0
  {
    assert InputOk(t.instances[k], s.Values(), s.kids[k], Conn(port, x));
    LowSmall(0, PortWidth(t.instances[k].child.m, port));
  }

  /** Then no stage ever sees a reset. */
  lemma {:induction false} TraceResetFree(t: Tree, events: seq<Event>, k: nat, net: StageNet, x: Signal)
    requires Settleable(t) && External(t, events) && IsInput(t.m, x) && t.m.initialRegisters == []
    requires HeldLow(events, x)
    requires k < |t.instances| && Conn(net.ResetSignal(), x) in t.instances[k].inputs && ValidPath(t, [k])
    ensures ResetFree(TraceOf(t, events, [k], net))
    decreases |events|
  {
    if events != [] {
      LowBefore(t, events, x);
      TraceResetFree(t, events[..|events| - 1], k, net, x);
      KidTraceStep(t, events, k, net);
      CycleLow(t, events[..|events| - 1], k, net, x);
    }
  }

  lemma LowBefore(t: Tree, events: seq<Event>, x: Signal)
    requires External(t, events) && HeldLow(events, x) && events != []
    ensures External(t, events[..|events| - 1]) && HeldLow(events[..|events| - 1], x)
  {
  }

  lemma CycleLow(t: Tree, events: seq<Event>, k: nat, net: StageNet, x: Signal)
    requires Settleable(t) && External(t, events) && IsInput(t.m, x) && t.m.initialRegisters == []
    requires HeldLow(events, x)
    requires k < |t.instances| && Conn(net.ResetSignal(), x) in t.instances[k].inputs
    ensures !StageObserve(Run(t, Start(t), events).kids[k].store, net).reset
  {
    StaysLow(t, events, x);
    RunSettled(t, events);
    PortLow(t, Run(t, Start(t), events), k, net.ResetSignal(), x);
  }

  lemma ResetWired(id: nat, payload: Payload, mods: seq<Module>, nets: seq<StageNet>, k: nat)
    requires AreStages(payload, mods, nets) && k < |mods|
    ensures Conn(nets[k].ResetSignal(), ResetOf(id)) in SeriesTree(id, payload, mods).instances[k].inputs
    ensures IsInput(SeriesTree(id, payload, mods).m, ResetOf(id))
  {
    var tys := PayloadTypes(payload);
    assert IsStage(mods[k].id, payload, mods[k], nets[k]);
    ConnOf(mods[k].id, id, payload, k, Input, 1);
    SharedSignal(id, tys, |mods|, k, 1);
  }

  // ------------------------------------------------------------ closed theorem

  /** Any list of generated stages over one payload, wired in series: on every run
      that never raises reset, what the first accepted is what the last delivered
      followed by what the stages hold, last stage first, and they hold no more
      than their capacities.  Nothing is assumed of the design. */
  lemma SeriesConserves(id: nat, payload: Payload, mods: seq<Module>, nets: seq<StageNet>, events: seq<Event>)
    requires AreStages(payload, mods, nets) && NamesApart(payload)
    requires External(SeriesTree(id, payload, mods), events) && HeldLow(events, ResetOf(id))
    ensures
      var t, c := SeriesTree(id, payload, mods), SeriesChain(id, payload, nets);
      && Settleable(t) && IsPipeline(t, c)
      && var traces := Traces(t, events, c);
         && Accepted(traces[0]) == Delivered(traces[|traces| - 1]) + Contents(traces, |traces|)
         && |Contents(traces, |traces|)| <= TotalCapacity(c.Kinds(), |c.nets|)
  {
    var t, c := SeriesTree(id, payload, mods), SeriesChain(id, payload, nets);
    AssembledSettleable(id, payload, mods, nets);
    AssembledPipeline(id, payload, mods, nets);
    forall k | 0 <= k < |nets|
      ensures ResetFree(Traces(t, events, c)[k])
    {
      ResetWired(id, payload, mods, nets, k);
      KidState(t, Start(t), k);
      TraceResetFree(t, events, k, nets[k], ResetOf(id));
    }
    PipelineConserves(t, events, c);
  }
}
