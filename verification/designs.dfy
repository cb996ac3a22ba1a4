/** Designs as the user writes them: modules that instantiate one another by name,
    the checks on instances and on the hierarchy, and the tree a checked design
    elaborates to.  Everything the theorems ask of a tree's structure follows
    from the checks. */
module Designs {
  import opened Rtl
  import opened Simulation
  import opened Paths
  import opened Depends
  import opened TypeCheck
  import opened Bound
  import opened Flatten
  import opened FlatSane
  import FlatEval
  import Ranking
  import Distinct

  /** An assertion or a cover point. */
  datatype Check = Check(name: string, clock: Option<Signal>, enable: Option<Expr>, condition: Expr)

  datatype PortConnection = PortConnection(port: string, signal: Signal)

  datatype SourceInstance = SourceInstance(name: string, target: string, connections: seq<PortConnection>)

  /** A module with the names of its signals. */
  datatype SourceModule_ = SourceModule(
    name: string, logic: Module, names: seq<string>,
    assertions: seq<Check>, covers: seq<Check>, instances: seq<SourceInstance>)
  {
    predicate Named() {
      |names| == |logic.signals|
    }

    predicate IsPort(k: nat) {
      k < |logic.signals| && (logic.signals[k].kind.Input? || logic.signals[k].kind.Output?)
    }
  }

  type SourceModule = m: SourceModule_ | m.Named()
    witness SourceModule("", Module(0, [], [], [], [], []), [], [], [], [])

  type Design = seq<SourceModule>

  // ---------------------------------------------------------------- look-ups

  /** The first module of a name, from the k-th on. */
  function ModuleFrom(d: Design, name: string, k: nat): (r: Option<nat>)
    requires k <= |d|
    ensures r.Some? ==> k <= r.value < |d| && d[r.value].name == name
    ensures r.Some? ==> forall i | k <= i < r.value :: d[i].name != name
    ensures r.None? ==> forall i | k <= i < |d| :: d[i].name != name
    decreases |d| - k
  {
    if k == |d| then None
    else if d[k].name == name then Some(k)
    else ModuleFrom(d, name, k + 1)
  }

  /** `Design::find_module` */
  function FindModule(d: Design, name: string): (r: Option<nat>)
    ensures r.Some? ==> r.value < |d| && d[r.value].name == name
    ensures r.None? <==> forall i | 0 <= i < |d| :: d[i].name != name
  {
    ModuleFrom(d, name, 0)
  }

  function PortFrom(m: SourceModule, name: string, k: nat): (r: Option<nat>)
    requires k <= |m.names|
    ensures r.Some? ==> k <= r.value < |m.names| && m.names[r.value] == name && m.IsPort(r.value)
    ensures r.None? ==> forall i | k <= i < |m.names| :: m.names[i] != name || !m.IsPort(i)
    decreases |m.names| - k
  {
    if k == |m.names| then None
    else if m.names[k] == name && m.IsPort(k) then Some(k)
    else PortFrom(m, name, k + 1)
  }

  /** The first port of a name. */
  function FindPort(m: SourceModule, name: string): (r: Option<nat>)
    ensures r.Some? ==> r.value < |m.names| && m.names[r.value] == name && m.IsPort(r.value)
    ensures r.None? ==> forall i | 0 <= i < |m.names| :: m.names[i] != name || !m.IsPort(i)
  {
    PortFrom(m, name, 0)
  }

  /** With unique names the first port of a name is the port of that name. */
  lemma PortByName(m: SourceModule, k: nat)
    requires m.IsPort(k) && Distinct.Distinct(m.names)
    ensures FindPort(m, m.names[k]) == Some(k)
  {
    var r := FindPort(m, m.names[k]);
    assert m.names[k] == m.names[k];
  }

  // ------------------------------------------------------------------ checks

  predicate DrivenByOutput(target: SourceModule, c: PortConnection) {
    var port := FindPort(target, c.port);
    port.Some? && target.logic.signals[port.value].kind.Output?
  }

  /** The port exists, the types agree, and an output drives what may be driven. */
  predicate ConnectionFine(m: SourceModule, target: SourceModule, c: PortConnection) {
    var port := FindPort(target, c.port);
    && port.Some?
    && SignalType(m.logic, c.signal) == Some(target.logic.signals[port.value].ty)
    && (target.logic.signals[port.value].kind.Output? ==> Drivable(m.logic, c.signal))
  }

  predicate PortFree(conns: seq<PortConnection>, k: nat)
    requires k < |conns|
  {
    forall j | 0 <= j < k :: conns[j].port != conns[k].port
  }

  predicate PortConnected(conns: seq<PortConnection>, name: string) {
    exists j | 0 <= j < |conns| :: conns[j].port == name
  }

  predicate ConnectionsFine(m: SourceModule, target: SourceModule, conns: seq<PortConnection>) {
    && (forall k | 0 <= k < |conns| :: ConnectionFine(m, target, conns[k]) && PortFree(conns, k))
    && (forall k | 0 <= k < |target.names| && target.IsPort(k) :: PortConnected(conns, target.names[k]))
  }

  predicate InstanceFine(d: Design, m: SourceModule, inst: SourceInstance) {
    var target := FindModule(d, inst.target);
    target.Some? && ConnectionsFine(m, d[target.value], inst.connections)
  }

  /** The parent signals the outputs of an instance drive: the first n
      connections. */
  function OutputsUpto(target: SourceModule, conns: seq<PortConnection>, n: nat): seq<Signal>
    requires n <= |conns|
  {
    if n == 0 then []
    else
      OutputsUpto(target, conns, n - 1)
      + if DrivenByOutput(target, conns[n - 1]) then [conns[n - 1].signal] else []
  }

  function OutputsOf(d: Design, inst: SourceInstance): seq<Signal> {
    var target := FindModule(d, inst.target);
    if target.None? then [] else OutputsUpto(d[target.value], inst.connections, |inst.connections|)
  }

  /** The same for the first n instances. */
  function AllOutputs(d: Design, m: SourceModule, n: nat): seq<Signal>
    requires n <= |m.instances|
  {
    if n == 0 then [] else AllOutputs(d, m, n - 1) + OutputsOf(d, m.instances[n - 1])
  }

  function InstanceNames(m: SourceModule): seq<string> {
    seq(|m.instances|, i requires 0 <= i < |m.instances| => m.instances[i].name)
  }

  /** What `validate_instances` accepts. */
  predicate InstancesFine(d: Design, m: SourceModule) {
    var outputs := AllOutputs(d, m, |m.instances|);
    && Distinct.Distinct(InstanceNames(m))
    && (forall i | 0 <= i < |m.instances| :: InstanceFine(d, m, m.instances[i]))
    && (forall a | a in m.logic.assignments :: a.dst !in outputs)
    && Distinct.Distinct(outputs)
  }

  /** One module instantiates another. */
  ghost predicate Instantiates(d: Design, a: string, b: string) {
    exists m, i :: m in d && 0 <= i < |m.instances| && m.name == a
                   && m.instances[i].target == b && FindModule(d, b).Some?
  }

  ghost function Hierarchy(d: Design): Relation<string> {
    (a, b) => Instantiates(d, a, b)
  }

  // ------------------------------------------------------------- elaboration

  /** The connections of one direction, in order, to ports by handle. */
  function ConnsUpto(target: SourceModule, conns: seq<PortConnection>, inputs: bool, n: nat): seq<Conn>
    requires n <= |conns|
  {
    if n == 0 then []
    else
      var c := conns[n - 1];
      var port := FindPort(target, c.port);
      ConnsUpto(target, conns, inputs, n - 1)
      + if port.Some? && target.logic.signals[port.value].kind.Input? == inputs
        then [Conn(target.logic.Handle(port.value), c.signal)] else []
  }

  function ConnsOf(target: SourceModule, inst: SourceInstance, inputs: bool): seq<Conn> {
    ConnsUpto(target, inst.connections, inputs, |inst.connections|)
  }

  ghost predicate ElaboratedInstance(d: Design, inst: SourceInstance, e: Instance) {
    var target := FindModule(d, inst.target);
    && target.Some?
    && e.inputs == ConnsOf(d[target.value], inst, true)
    && e.outputs == ConnsOf(d[target.value], inst, false)
  }

  /** `t` is the tree of module `m`, as the simulator builds it. */
  ghost predicate Elaborates(d: Design, m: SourceModule, t: Tree)
    decreases t
  {
    && t.m == m.logic && |t.instances| == |m.instances|
    && forall i | 0 <= i < |m.instances| ::
         && ElaboratedInstance(d, m.instances[i], t.instances[i])
         && Elaborates(d, d[FindModule(d, m.instances[i].target).value], t.Child(i))
  }

  /** Every module passes the checks on its logic, names and instances. */
  predicate ModulesFine(d: Design) {
    forall m | m in d :: ModuleFine(d, m)
  }

  predicate ModuleFine(d: Design, m: SourceModule) {
    Distinct.Distinct(m.names) && LogicOk(m.logic) && InstancesFine(d, m)
  }

  // ------------------------------------------------- connections of a tree

  /** Every elaborated connection stems from a named one. */
  lemma {:induction false} ConnOrigin(target: SourceModule, conns: seq<PortConnection>, inputs: bool,
                                      n: nat, o: nat) returns (k: nat)
    requires n <= |conns| && o < |ConnsUpto(target, conns, inputs, n)|
    ensures k < n && FindPort(target, conns[k].port).Some?
    ensures
      var port := FindPort(target, conns[k].port).value;
      && target.logic.signals[port].kind.Input? == inputs
      && ConnsUpto(target, conns, inputs, n)[o] == Conn(target.logic.Handle(port), conns[k].signal)
  {
    var before := ConnsUpto(target, conns, inputs, n - 1);
    if o < |before| {
      k := ConnOrigin(target, conns, inputs, n - 1, o);
    } else {
      k := n - 1;
    }
  }

  /** Elaborated connections keep the order of the named ones. */
  lemma {:induction false} ConnOrder(target: SourceModule, conns: seq<PortConnection>, inputs: bool,
                                     n: nat, o: nat, u: nat) returns (k: nat, l: nat)
    requires n <= |conns| && o < u < |ConnsUpto(target, conns, inputs, n)|
    ensures k < l < n && FindPort(target, conns[k].port).Some? && FindPort(target, conns[l].port).Some?
    ensures
      var cs := ConnsUpto(target, conns, inputs, n);
      && cs[o] == Conn(target.logic.Handle(FindPort(target, conns[k].port).value), conns[k].signal)
      && cs[u] == Conn(target.logic.Handle(FindPort(target, conns[l].port).value), conns[l].signal)
  {
    var before := ConnsUpto(target, conns, inputs, n - 1);
    if u < |before| {
      k, l := ConnOrder(target, conns, inputs, n - 1, o, u);
    } else {
      l := n - 1;
      k := ConnOrigin(target, conns, inputs, n - 1, o);
    }
  }

  /** A named connection of the direction is elaborated. */
  lemma {:induction false} ConnPresent(target: SourceModule, conns: seq<PortConnection>, inputs: bool,
                                       n: nat, k: nat)
    requires k < n <= |conns| && FindPort(target, conns[k].port).Some?
    requires target.logic.signals[FindPort(target, conns[k].port).value].kind.Input? == inputs
    ensures Conn(target.logic.Handle(FindPort(target, conns[k].port).value), conns[k].signal)
            in ConnsUpto(target, conns, inputs, n)
  {
    if k < n - 1 {
      ConnPresent(target, conns, inputs, n - 1, k);
    }
  }

  /** The outputs of an elaborated instance drive the counted signals, in order. */
  lemma {:induction false} OutputParents(target: SourceModule, conns: seq<PortConnection>, n: nat)
    requires n <= |conns|
    ensures |ConnsUpto(target, conns, false, n)| == |OutputsUpto(target, conns, n)|
    ensures forall o | 0 <= o < |OutputsUpto(target, conns, n)| ::
              ConnsUpto(target, conns, false, n)[o].parent == OutputsUpto(target, conns, n)[o]
  {
    if n > 0 {
      OutputParents(target, conns, n - 1);
    }
  }

  lemma InputConnFine(m: SourceModule, target: SourceModule, inst: SourceInstance, c: Conn)
    requires ConnectionsFine(m, target, inst.connections) && c in ConnsOf(target, inst, true)
    ensures IsInput(target.logic, c.port) && m.logic.Owns(c.parent)
    ensures m.logic.WidthOf(c.parent) == target.logic.WidthOf(c.port)
  {
    var o :| 0 <= o < |ConnsOf(target, inst, true)| && ConnsOf(target, inst, true)[o] == c;
    var k := ConnOrigin(target, inst.connections, true, |inst.connections|, o);
    assert ConnectionFine(m, target, inst.connections[k]);
  }

  lemma OutputConnFine(m: SourceModule, target: SourceModule, inst: SourceInstance, c: Conn)
    requires ConnectionsFine(m, target, inst.connections) && c in ConnsOf(target, inst, false)
    ensures IsOutput(target.logic, c.port) && Drivable(m.logic, c.parent)
    ensures m.logic.WidthOf(c.parent) == target.logic.WidthOf(c.port)
  {
    var o :| 0 <= o < |ConnsOf(target, inst, false)| && ConnsOf(target, inst, false)[o] == c;
    var k := ConnOrigin(target, inst.connections, false, |inst.connections|, o);
    assert ConnectionFine(m, target, inst.connections[k]);
  }

  lemma InputsApart(m: SourceModule, target: SourceModule, inst: SourceInstance, o: nat, u: nat)
    requires ConnectionsFine(m, target, inst.connections)
    requires o < u < |ConnsOf(target, inst, true)|
    ensures ConnsOf(target, inst, true)[o].port != ConnsOf(target, inst, true)[u].port
  {
    var k, l := ConnOrder(target, inst.connections, true, |inst.connections|, o, u);
    assert PortFree(inst.connections, l);
  }

  lemma InputIsConnected(m: SourceModule, target: SourceModule, inst: SourceInstance, e: Instance, k: nat)
    requires ConnectionsFine(m, target, inst.connections) && Distinct.Distinct(target.names)
    requires e.child.m == target.logic && e.inputs == ConnsOf(target, inst, true)
    requires k < |target.logic.signals| && target.logic.signals[k].kind.Input?
    ensures Connected(e, target.logic.Handle(k))
  {
    assert target.IsPort(k);
    PortByName(target, k);
    assert PortConnected(inst.connections, target.names[k]);
    var j :| 0 <= j < |inst.connections| && inst.connections[j].port == target.names[k];
    ConnPresent(target, inst.connections, true, |inst.connections|, j);
    assert Conn(target.logic.Handle(k), inst.connections[j].signal) in e.inputs;
  }

  /** The connections of an elaborated instance are in order. */
  lemma ElaboratedConnections(m: SourceModule, target: SourceModule, inst: SourceInstance, e: Instance)
    requires ConnectionsFine(m, target, inst.connections) && Distinct.Distinct(target.names)
    requires e.child.m == target.logic
    requires e.inputs == ConnsOf(target, inst, true) && e.outputs == ConnsOf(target, inst, false)
    ensures ConnectionsOk(m.logic, e)
  {
    forall c | c in e.inputs {
      InputConnFine(m, target, inst, c);
    }
    forall c | c in e.outputs {
      OutputConnFine(m, target, inst, c);
    }
    forall o, u | 0 <= o < u < |e.inputs|
      ensures e.inputs[o].port != e.inputs[u].port
    {
      InputsApart(m, target, inst, o, u);
    }
    forall k | 0 <= k < |target.logic.signals| && target.logic.signals[k].kind.Input?
      ensures Connected(e, target.logic.Handle(k))
    {
      InputIsConnected(m, target, inst, e, k);
    }
  }

  // ------------------------------------------------------------- one driver

  /** The parents of an instance's outputs, seen in the tree. */
  ghost predicate ParentsAre(d: Design, m: SourceModule, t: Tree) {
    && |t.instances| == |m.instances|
    && forall i | 0 <= i < |m.instances| ::
         && |t.instances[i].outputs| == |OutputsOf(d, m.instances[i])|
         && forall o | 0 <= o < |t.instances[i].outputs| ::
              t.instances[i].outputs[o].parent == OutputsOf(d, m.instances[i])[o]
  }

  lemma ElaboratedParents(d: Design, m: SourceModule, t: Tree)
    requires Elaborates(d, m, t)
    ensures ParentsAre(d, m, t)
  {
    forall i | 0 <= i < |m.instances|
      ensures |t.instances[i].outputs| == |OutputsOf(d, m.instances[i])|
      ensures forall o | 0 <= o < |t.instances[i].outputs| ::
                t.instances[i].outputs[o].parent == OutputsOf(d, m.instances[i])[o]
    {
      var inst := m.instances[i];
      assert ElaboratedInstance(d, inst, t.instances[i]);
      OutputParents(d[FindModule(d, inst.target).value], inst.connections, |inst.connections|);
    }
  }

  lemma {:induction false} OutputListed(d: Design, m: SourceModule, n: nat, i: nat, o: nat)
    requires i < n <= |m.instances| && o < |OutputsOf(d, m.instances[i])|
    ensures OutputsOf(d, m.instances[i])[o] in AllOutputs(d, m, n)
  {
    if i < n - 1 {
      OutputListed(d, m, n - 1, i, o);
    } else {
      assert OutputsOf(d, m.instances[i])[o] in OutputsOf(d, m.instances[n - 1]);
    }
  }

  /** Outputs of different places drive different signals. */
  lemma {:induction false} OutputsApart(d: Design, m: SourceModule, n: nat, i: nat, o: nat, k: nat, u: nat)
    requires n <= |m.instances| && Distinct.Distinct(AllOutputs(d, m, n))
    requires i <= k < n && (i == k ==> o < u)
    requires o < |OutputsOf(d, m.instances[i])| && u < |OutputsOf(d, m.instances[k])|
    ensures OutputsOf(d, m.instances[i])[o] != OutputsOf(d, m.instances[k])[u]
    decreases n
  {
    var before, last := AllOutputs(d, m, n - 1), OutputsOf(d, m.instances[n - 1]);
    Distinct.DistinctParts(before, last);
    if k < n - 1 {
      OutputsApart(d, m, n - 1, i, o, k, u);
    } else if i < n - 1 {
      OutputListed(d, m, n - 1, i, o);
      ListedApart(before, last, OutputsOf(d, m.instances[i])[o], u);
    }
  }

  lemma ListedApart(before: seq<Signal>, last: seq<Signal>, x: Signal, u: nat)
    requires x in before && u < |last|
    requires forall i, j | 0 <= i < |before| && 0 <= j < |last| :: before[i] != last[j]
    ensures x != last[u]
  {
  }

  lemma OutputPlace(d: Design, m: SourceModule, t: Tree, i: nat, oc: Conn) returns (o: nat)
    requires ParentsAre(d, m, t) && i < |t.instances| && oc in t.instances[i].outputs
    ensures o < |OutputsOf(d, m.instances[i])| && oc.parent == OutputsOf(d, m.instances[i])[o]
  {
    o :| 0 <= o < |t.instances[i].outputs| && t.instances[i].outputs[o] == oc;
  }

  lemma InstanceOutputsApart(d: Design, m: SourceModule, t: Tree, i: nat, k: nat, oc: Conn, uc: Conn)
    requires ParentsAre(d, m, t) && Distinct.Distinct(AllOutputs(d, m, |m.instances|))
    requires i < k < |t.instances| && oc in t.instances[i].outputs && uc in t.instances[k].outputs
    ensures oc.parent != uc.parent
  {
    var o := OutputPlace(d, m, t, i, oc);
    var u := OutputPlace(d, m, t, k, uc);
    OutputsApart(d, m, |m.instances|, i, o, k, u);
  }

  lemma OutputUnassigned(d: Design, m: SourceModule, t: Tree, i: nat, oc: Conn, a: Assignment)
    requires ParentsAre(d, m, t) && i < |t.instances| && oc in t.instances[i].outputs
    requires a.dst !in AllOutputs(d, m, |m.instances|)
    ensures oc.parent != a.dst
  {
    var o := OutputPlace(d, m, t, i, oc);
    OutputListed(d, m, |m.instances|, i, o);
  }

  lemma ElaboratedDrivers(d: Design, m: SourceModule, t: Tree)
    requires t.m == m.logic && ParentsAre(d, m, t) && LogicOk(m.logic) && InstancesFine(d, m)
    ensures OneDriver(t)
  {
    var n := |m.instances|;
    forall j, k | 0 <= j < k < |t.m.assignments|
      ensures t.m.assignments[j].dst != t.m.assignments[k].dst
    {
      assert t.m.assignments[j] in t.m.assignments;
    }
    forall i, o, u | 0 <= i < |t.instances| && 0 <= o < u < |t.instances[i].outputs|
      ensures t.instances[i].outputs[o].parent != t.instances[i].outputs[u].parent
    {
      OutputsApart(d, m, n, i, o, i, u);
    }
    forall i, k, oc, uc | 0 <= i < k < |t.instances|
                          && oc in t.instances[i].outputs && uc in t.instances[k].outputs
      ensures oc.parent != uc.parent
    {
      InstanceOutputsApart(d, m, t, i, k, oc, uc);
    }
    forall i, oc, j | 0 <= i < |t.instances| && oc in t.instances[i].outputs
                      && 0 <= j < |t.m.assignments|
      ensures oc.parent != t.m.assignments[j].dst
    {
      assert t.m.assignments[j] in m.logic.assignments;
      OutputUnassigned(d, m, t, i, oc, t.m.assignments[j]);
    }
  }

  // --------------------------------------------------------------- the tree

  lemma InstanceTarget(d: Design, m: SourceModule, t: Tree, i: nat)
    requires ModulesFine(d) && ModuleFine(d, m) && Elaborates(d, m, t) && i < |t.instances|
    ensures FindModule(d, m.instances[i].target).Some?
    ensures
      var target := d[FindModule(d, m.instances[i].target).value];
      && ModuleFine(d, target) && Elaborates(d, target, t.Child(i))
      && ConnectionsFine(m, target, m.instances[i].connections)
      && t.instances[i].inputs == ConnsOf(target, m.instances[i], true)
      && t.instances[i].outputs == ConnsOf(target, m.instances[i], false)
  {
    assert ElaboratedInstance(d, m.instances[i], t.instances[i]);
    assert InstanceFine(d, m, m.instances[i]);
    assert d[FindModule(d, m.instances[i].target).value] in d;
  }

  lemma InstanceConnections(d: Design, m: SourceModule, t: Tree, i: nat)
    requires ModulesFine(d) && ModuleFine(d, m) && Elaborates(d, m, t) && i < |t.instances|
    ensures ConnectionsOk(t.m, t.instances[i])
  {
    InstanceTarget(d, m, t, i);
    var target := d[FindModule(d, m.instances[i].target).value];
    assert Elaborates(d, target, t.Child(i));
    ElaboratedConnections(m, target, m.instances[i], t.instances[i]);
  }

  /** A checked design elaborates to a well-formed tree: one driver per signal and
      connections in order, at every level. */
  lemma {:induction false} ElaboratedSane(d: Design, m: SourceModule, t: Tree)
    requires ModulesFine(d) && ModuleFine(d, m) && Elaborates(d, m, t)
    ensures Sane(t)
    decreases t
  {
    ElaboratedParents(d, m, t);
    ElaboratedDrivers(d, m, t);
    forall j | 0 <= j < |t.m.assignments|
      ensures Drivable(t.m, t.m.assignments[j].dst)
    {
      assert AssignmentOk(m.logic, t.m.assignments[j]);
    }
    forall i | 0 <= i < |t.instances|
      ensures ConnectionsOk(t.m, t.instances[i]) && Sane(t.Child(i))
    {
      InstanceConnections(d, m, t, i);
      InstanceTarget(d, m, t, i);
      ElaboratedSane(d, d[FindModule(d, m.instances[i].target).value], t.Child(i));
    }
  }

  lemma LogicClosed(m: Module)
    requires LogicOk(m)
    ensures forall a | a in m.assignments :: FlatEval.Closed(m, a.expr)
    ensures forall w | w in m.memoryWrites :: WriteClosed(m, w)
    ensures forall i | 0 <= i < |m.signals| && m.signals[i].kind.Reg? :: RegClosed(m, m.signals[i])
  {
    forall a | a in m.assignments
      ensures FlatEval.Closed(m, a.expr)
    {
      assert AssignmentOk(m, a);
      WellTypedCloses(m, a.expr);
    }
    forall w | w in m.memoryWrites
      ensures WriteClosed(m, w)
    {
      assert WriteOk(m, w);
      WellTypedCloses(m, w.enable);
      WellTypedCloses(m, w.addr);
      WellTypedCloses(m, w.data);
    }
    forall i | 0 <= i < |m.signals| && m.signals[i].kind.Reg?
      ensures RegClosed(m, m.signals[i])
    {
      assert RegisterOk(m, m.signals[i]);
      WellTypedCloses(m, m.signals[i].kind.next.value);
    }
  }

  /** No expression of a checked design leaves its module. */
  lemma {:induction false} ElaboratedClosed(d: Design, m: SourceModule, t: Tree)
    requires ModulesFine(d) && ModuleFine(d, m) && Elaborates(d, m, t)
    ensures AllClosed(t)
    decreases t
  {
    LogicClosed(m.logic);
    forall i | 0 <= i < |t.instances|
      ensures AllClosed(t.Child(i))
    {
      InstanceTarget(d, m, t, i);
      ElaboratedClosed(d, d[FindModule(d, m.instances[i].target).value], t.Child(i));
    }
  }

  // ---------------------------------------------------- a tree always exists

  function Names(d: Design): set<string> {
    set m | m in d :: m.name
  }

  /** No module of the design reaches a cycle of instantiations. */
  ghost predicate HierarchyFine(d: Design) {
    forall m | m in d :: !ReachesCycle(Hierarchy(d), m.name)
  }

  predicate TargetsExist(d: Design) {
    forall m | m in d :: forall i | 0 <= i < |m.instances| :: FindModule(d, m.instances[i].target).Some?
  }

  /** Module k, reached through the modules in `path`. */
  ghost predicate Reachable(d: Design, k: nat, path: set<string>) {
    && k < |d| && path <= Names(d)
    && !ReachesCycle(Hierarchy(d), d[k].name)
    && forall a | a in path :: Reaches(Hierarchy(d), a, d[k].name)
  }

  /** Going down one instance never meets a module of the path again. */
  lemma StepDown(d: Design, k: nat, path: set<string>, i: nat)
    requires TargetsExist(d) && Reachable(d, k, path) && i < |d[k].instances|
    ensures d[k] in d && d[k].name in Names(d) && d[k].name !in path
    ensures FindModule(d, d[k].instances[i].target).Some?
    ensures Reachable(d, FindModule(d, d[k].instances[i].target).value, path + {d[k].name})
  {
    var r, a, b := Hierarchy(d), d[k].name, d[k].instances[i].target;
    assert d[k] in d;
    assert Instantiates(d, a, b);
    StepReaches(r, a, b);
    if ReachesCycle(r, b) {
      var c :| Reaches(r, c, c) && (c == b || Reaches(r, b, c));
      if c != b {
        ReachesTrans(r, a, b, c);
      }
      assert ReachesCycle(r, a);
    }
    forall x | x in path
      ensures Reaches(r, x, b)
    {
      ReachesTrans(r, x, a, b);
    }
  }

  /** The tree of module k, built top down. */
  ghost function Elaborate(d: Design, k: nat, path: set<string>): Tree
    requires TargetsExist(d) && Reachable(d, k, path)
    decreases Names(d) - path
  {
    Tree(d[k].logic,
         seq(|d[k].instances|, i requires 0 <= i < |d[k].instances| =>
           (StepDown(d, k, path, i);
            var inst := d[k].instances[i];
            var target := FindModule(d, inst.target).value;
            Instance(Elaborate(d, target, path + {d[k].name}),
                     ConnsOf(d[target], inst, true), ConnsOf(d[target], inst, false)))))
  }

  lemma {:induction false} ElaborateIs(d: Design, k: nat, path: set<string>)
    requires TargetsExist(d) && Reachable(d, k, path)
    ensures Elaborates(d, d[k], Elaborate(d, k, path))
    decreases Names(d) - path
  {
    var t := Elaborate(d, k, path);
    forall i | 0 <= i < |d[k].instances|
      ensures ElaboratedInstance(d, d[k].instances[i], t.instances[i])
      ensures Elaborates(d, d[FindModule(d, d[k].instances[i].target).value], t.Child(i))
    {
      StepDown(d, k, path, i);
      ElaborateIs(d, FindModule(d, d[k].instances[i].target).value, path + {d[k].name});
    }
  }

  /** Every module of a checked design has a tree, and the tree is well formed and
      closed. */
  lemma CheckedElaborates(d: Design, k: nat)
    requires ModulesFine(d) && HierarchyFine(d) && k < |d|
    ensures exists t :: Elaborates(d, d[k], t) && Sane(t) && AllClosed(t)
  {
    assert d[k] in d;
    forall m | m in d
      ensures forall i | 0 <= i < |m.instances| :: FindModule(d, m.instances[i].target).Some?
    {
      forall i | 0 <= i < |m.instances|
        ensures FindModule(d, m.instances[i].target).Some?
      {
        assert InstanceFine(d, m, m.instances[i]);
      }
    }
    ElaborateIs(d, k, {});
    ElaboratedSane(d, d[k], Elaborate(d, k, {}));
    ElaboratedClosed(d, d[k], Elaborate(d, k, {}));
  }

  // ------------------------------------------- what the theorems ask of a tree

  lemma {:induction false} CoarseLevels(t: Tree)
    requires Ranking.CoarseAcyclic(t)
    ensures LevelsAcyclic(t)
    decreases t
  {
    forall a, b | Edges(t)(a, b)
      ensures Ranking.CoarseEdges(t)(a, b)
    {
      Ranking.EdgeIsCoarse(t, a, b);
    }
    AcyclicSub(Edges(t), Ranking.CoarseEdges(t));
    forall i | 0 <= i < |t.instances|
      ensures LevelsAcyclic(t.Child(i))
    {
      CoarseLevels(t.Child(i));
    }
  }

  /** A checked design that stays acyclic with instances as single nodes settles,
      and without hold-muxes and asynchronous resets it can be flattened. */
  lemma CheckedSettles(d: Design, m: SourceModule, t: Tree)
    requires ModulesFine(d) && ModuleFine(d, m) && Elaborates(d, m, t)
    requires Ranking.CoarseAcyclic(t) && AsyncFromInputs(t.m)
    requires forall i | 0 <= i < |t.instances| :: Pure(t.Child(i))
    ensures Settleable(t)
    ensures Pure(t) ==> Flattenable(t)
  {
    ElaboratedSane(d, m, t);
    ElaboratedClosed(d, m, t);
    Ranking.CoarseLevelled(t);
    CoarseLevels(t);
  }
}
