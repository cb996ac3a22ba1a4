/** Validation of a whole design and compilation behind it: a design that passes
    compiles, and compilation drops nothing. */
module Compile {
  import opened Rtl
  import opened TypeCheck
  import opened Designs
  import opened Paths
  import opened Depends
  import CycleCheck
  import Distinct

  // ---------------------------------------------------------- repeated names

  /** The names before the n-th. */
  function Before(names: seq<string>, n: nat): set<string>
    requires n <= |names|
  {
    set k | 0 <= k < n :: names[k]
  }

  lemma DistinctStep(names: seq<string>, n: nat)
    requires n < |names|
    ensures Distinct.Distinct(names[..n + 1])
            <==> Distinct.Distinct(names[..n]) && names[n] !in Before(names, n)
  {
    var more := names[..n + 1];
    if Distinct.Distinct(more) {
      forall i, j | 0 <= i < j < n
        ensures names[..n][i] != names[..n][j]
      {
        assert more[i] != more[j];
      }
      forall k | 0 <= k < n
        ensures names[k] != names[n]
      {
        assert more[k] != more[n];
      }
    }
    if Distinct.Distinct(names[..n]) && names[n] !in Before(names, n) {
      forall i, j | 0 <= i < j < n + 1
        ensures more[i] != more[j]
      {
        assert j < n ==> names[..n][i] != names[..n][j];
      }
    }
  }

  /** The names are new and, if asked for, not empty. */
  predicate NamesFine(names: seq<string>, nonEmpty: bool) {
    Distinct.Distinct(names) && (nonEmpty ==> forall k | 0 <= k < |names| :: names[k] != "")
  }

  /** The `HashSet` loops over names. */
  method CheckNames(names: seq<string>, nonEmpty: bool, empty: Code, dup: Code, r: Report)
    modifies r
    ensures Reports(r, NamesFine(names, nonEmpty))
  {
    var seen: set<string> := {};
    var n := 0;
    while n < |names|
      invariant n <= |names| && seen == Before(names, n)
      invariant Reports(r, NamesFine(names[..n], nonEmpty))
    {
      DistinctStep(names, n);
      assert names[..n + 1] == names[..n] + [names[n]];
      if nonEmpty && names[n] == "" {
        r.Push(empty);
      }
      if names[n] in seen {
        r.Push(dup);
      }
      seen := seen + {names[n]};
      n := n + 1;
    }
    assert names[..|names|] == names;
  }

  // ------------------------------------------------ assertions and cover points

  predicate CheckOk(m: Module, c: Check) {
    && WellTyped(m, c.condition) && TypeOf(m, c.condition) == Some(UInt(1))
    && (c.enable.Some? ==> WellTyped(m, c.enable.value) && TypeOf(m, c.enable.value) == Some(UInt(1)))
    && (c.clock.Some? ==> m.Owns(c.clock.value) && m.WidthOf(c.clock.value) == 1)
  }

  function CheckNamesOf(checks: seq<Check>): seq<string> {
    seq(|checks|, k requires 0 <= k < |checks| => checks[k].name)
  }

  predicate ChecksFine(m: Module, checks: seq<Check>) {
    NamesFine(CheckNamesOf(checks), true) && forall k | 0 <= k < |checks| :: CheckOk(m, checks[k])
  }

  method ValidateCheck(m: Module, c: Check, r: Report)
    modifies r
    ensures Reports(r, CheckOk(m, c))
  {
    var condition := ExprType(m, c.condition, r);
    Expect(condition, UInt(1), E_CHECK_CONDITION_TYPE, r);
    if c.enable.Some? {
      var enable := ExprType(m, c.enable.value, r);
      Expect(enable, UInt(1), E_CHECK_ENABLE_TYPE, r);
    }
    if c.clock.Some? {
      var clock := CheckSignal(m, c.clock.value, r);
      CheckWidthOne(clock, E_CHECK_CLOCK_WIDTH, r);
    }
  }

  /** `validate_assertions` and `validate_cover_points` */
  method ValidateChecks(m: Module, checks: seq<Check>, r: Report)
    modifies r
    ensures Reports(r, ChecksFine(m, checks))
  {
    CheckNames(CheckNamesOf(checks), true, E_CHECK_NAME_EMPTY, E_CHECK_NAME_DUP, r);
    var k := 0;
    while k < |checks|
      invariant k <= |checks|
      invariant Reports(r, NamesFine(CheckNamesOf(checks), true)
                           && forall j | 0 <= j < k :: CheckOk(m, checks[j]))
    {
      ValidateCheck(m, checks[k], r);
      k := k + 1;
    }
  }

  // --------------------------------------------------------------- instances

  /** One connection, apart from the check that its port is new. */
  method ValidateConnection(m: SourceModule, target: SourceModule, c: PortConnection, r: Report)
    modifies r
    ensures Reports(r, ConnectionFine(m, target, c))
  {
    var port := FindPort(target, c.port);
    if port.None? {
      r.Push(E_INSTANCE_PORT);
      return;
    }
    var info := target.logic.signals[port.value];
    var ty := CheckSignal(m.logic, c.signal, r);
    Expect(ty, info.ty, E_INSTANCE_TYPE, r);
    if info.kind.Output? && ty.Some? && !Drivable(m.logic, c.signal) {
      r.Push(E_INSTANCE_OUTPUT_TARGET);
    }
  }

  /** The ports of the first n connections that exist. */
  function FoundPorts(target: SourceModule, conns: seq<PortConnection>, n: nat): set<string>
    requires n <= |conns|
  {
    set k | 0 <= k < n && FindPort(target, conns[k].port).Some? :: conns[k].port
  }

  /** A connection whose port exists repeats an earlier one exactly if its name has
      been seen. */
  lemma PortSeen(target: SourceModule, conns: seq<PortConnection>, k: nat)
    requires k < |conns| && FindPort(target, conns[k].port).Some?
    ensures PortFree(conns, k) <==> conns[k].port !in FoundPorts(target, conns, k)
  {
  }

  function Bump(drivers: map<Signal, nat>, x: Signal): map<Signal, nat> {
    drivers[x := Counted(drivers, x) + 1]
  }

  /** The counts after every output of a sequence has been counted. */
  function Tally(before: map<Signal, nat>, outputs: seq<Signal>): map<Signal, nat>
    decreases |outputs|
  {
    if outputs == [] then before
    else Bump(Tally(before, outputs[..|outputs| - 1]), outputs[|outputs| - 1])
  }

  lemma TallyOne(before: map<Signal, nat>, outputs: seq<Signal>, x: Signal)
    ensures Tally(before, outputs + [x]) == Bump(Tally(before, outputs), x)
  {
    assert (outputs + [x])[..|outputs|] == outputs;
  }

  lemma {:induction false} TallyBoth(before: map<Signal, nat>, a: seq<Signal>, b: seq<Signal>)
    ensures Tally(before, a + b) == Tally(Tally(before, a), b)
    decreases |b|
  {
    if b == [] {
      assert a + b == a;
    } else {
      var n := |b| - 1;
      assert a + b == (a + b[..n]) + [b[n]];
      TallyOne(before, a + b[..n], b[n]);
      TallyBoth(before, a, b[..n]);
    }
  }

  /** Each count is the number of times the signal occurs. */
  lemma {:induction false} TallyCounts(outputs: seq<Signal>, x: Signal)
    ensures Counted(Tally(map[], outputs), x) == multiset(outputs)[x]
    ensures x in Tally(map[], outputs) <==> x in outputs
    decreases |outputs|
  {
    if outputs != [] {
      var n := |outputs| - 1;
      TallyCounts(outputs[..n], x);
      assert outputs == outputs[..n] + [outputs[n]];
    }
  }

  predicate ConnectionsUpto(m: SourceModule, target: SourceModule, conns: seq<PortConnection>, n: nat)
    requires n <= |conns|
  {
    forall k | 0 <= k < n :: ConnectionFine(m, target, conns[k]) && PortFree(conns, k)
  }

  lemma ConnectionsMore(m: SourceModule, target: SourceModule, conns: seq<PortConnection>, n: nat)
    requires n < |conns|
    ensures ConnectionsUpto(m, target, conns, n + 1)
            <==> ConnectionsUpto(m, target, conns, n)
                 && ConnectionFine(m, target, conns[n]) && PortFree(conns, n)
  {
  }

  /** One connection: whether its port is new, the connection itself, and what an
      output drives is counted. */
  method VisitConnection(m: SourceModule, target: SourceModule, conns: seq<PortConnection>, n: nat,
                         before: map<Signal, nat>, seen: set<string>, r: Report)
    returns (drivers: map<Signal, nat>, ports: set<string>)
    requires n < |conns| && seen == FoundPorts(target, conns, n)
    modifies r
    ensures ports == FoundPorts(target, conns, n + 1)
    ensures drivers == if DrivenByOutput(target, conns[n]) then Bump(before, conns[n].signal) else before
    ensures Reports(r, ConnectionFine(m, target, conns[n]) && PortFree(conns, n))
  {
    var c := conns[n];
    drivers, ports := before, seen;
    if FindPort(target, c.port).Some? {
      PortSeen(target, conns, n);
      if c.port in seen {
        r.Push(E_INSTANCE_PORT_DUP);
      }
      ports := seen + {c.port};
    }
    ValidateConnection(m, target, c, r);
    if DrivenByOutput(target, c) {
      drivers := Bump(before, c.signal);
    }
  }

  lemma OutputsStep(target: SourceModule, conns: seq<PortConnection>, n: nat, before: map<Signal, nat>)
    requires n < |conns|
    ensures Tally(before, OutputsUpto(target, conns, n + 1))
         == if DrivenByOutput(target, conns[n])
            then Bump(Tally(before, OutputsUpto(target, conns, n)), conns[n].signal)
            else Tally(before, OutputsUpto(target, conns, n))
  {
    var so := OutputsUpto(target, conns, n);
    TallyOne(before, so, conns[n].signal);
    assert so + [] == so;
  }

  /** The loop over the connections of an instance. */
  method VisitConnections(m: SourceModule, target: SourceModule, conns: seq<PortConnection>,
                          before: map<Signal, nat>, r: Report)
    returns (drivers: map<Signal, nat>, ports: set<string>)
    modifies r
    ensures ports == FoundPorts(target, conns, |conns|)
    ensures drivers == Tally(before, OutputsUpto(target, conns, |conns|))
    ensures Reports(r, ConnectionsUpto(m, target, conns, |conns|))
  {
    drivers, ports := before, {};
    var n := 0;
    while n < |conns|
      invariant n <= |conns| && ports == FoundPorts(target, conns, n)
      invariant drivers == Tally(before, OutputsUpto(target, conns, n))
      invariant Reports(r, ConnectionsUpto(m, target, conns, n))
    {
      ConnectionsMore(m, target, conns, n);
      OutputsStep(target, conns, n, before);
      drivers, ports := VisitConnection(m, target, conns, n, drivers, ports, r);
      n := n + 1;
    }
  }

  /** The connections of an instance. */
  method ValidateConnections(m: SourceModule, target: SourceModule, conns: seq<PortConnection>,
                             before: map<Signal, nat>, r: Report)
    returns (drivers: map<Signal, nat>)
    modifies r
    ensures drivers == Tally(before, OutputsUpto(target, conns, |conns|))
    ensures Reports(r, ConnectionsFine(m, target, conns))
  {
    var ports;
    drivers, ports := VisitConnections(m, target, conns, before, r);
    CheckUnconnected(m, target, conns, ports, r);
    ConnectionsAre(m, target, conns);
  }

  lemma ConnectionsAre(m: SourceModule, target: SourceModule, conns: seq<PortConnection>)
    ensures ConnectionsFine(m, target, conns)
            <==> ConnectionsUpto(m, target, conns, |conns|) && PortsUpto(target, conns, |target.names|)
  {
  }

  /** Every port of the target is connected. */
  predicate PortsUpto(target: SourceModule, conns: seq<PortConnection>, n: nat)
    requires n <= |target.names|
  {
    forall k | 0 <= k < n && target.IsPort(k) :: PortConnected(conns, target.names[k])
  }

  lemma PortIsFound(target: SourceModule, conns: seq<PortConnection>, k: nat)
    requires target.IsPort(k)
    ensures target.names[k] in FoundPorts(target, conns, |conns|) <==> PortConnected(conns, target.names[k])
  {
    var name := target.names[k];
    assert FindPort(target, name).Some?;
    if PortConnected(conns, name) {
      var j :| 0 <= j < |conns| && conns[j].port == name;
      assert FindPort(target, conns[j].port).Some?;
    }
  }

  method CheckUnconnected(m: SourceModule, target: SourceModule, conns: seq<PortConnection>,
                          ports: set<string>, r: Report)
    requires ports == FoundPorts(target, conns, |conns|)
    modifies r
    ensures Reports(r, PortsUpto(target, conns, |target.names|))
  {
    var k := 0;
    while k < |target.names|
      invariant k <= |target.names| && Reports(r, PortsUpto(target, conns, k))
    {
      if target.IsPort(k) {
        PortIsFound(target, conns, k);
        if target.names[k] !in ports {
          r.Push(E_INSTANCE_UNCONNECTED);
        }
      }
      k := k + 1;
    }
  }

  predicate InstancesUpto(d: Design, m: SourceModule, n: nat)
    requires n <= |m.instances|
  {
    forall i | 0 <= i < n :: InstanceFine(d, m, m.instances[i])
  }

  /** One instance. */
  method ValidateInstance(d: Design, m: SourceModule, inst: SourceInstance, before: map<Signal, nat>,
                          r: Report) returns (drivers: map<Signal, nat>)
    modifies r
    ensures drivers == Tally(before, OutputsOf(d, inst))
    ensures Reports(r, InstanceFine(d, m, inst))
  {
    var target := FindModule(d, inst.target);
    if target.None? {
      r.Push(E_INSTANCE_TARGET);
      return before;
    }
    drivers := ValidateConnections(m, d[target.value], inst.connections, before, r);
  }

  predicate Undriven(assignments: seq<Assignment>, outputs: seq<Signal>, n: nat)
    requires n <= |assignments|
  {
    forall j | 0 <= j < n :: assignments[j].dst !in outputs
  }

  /** Signals driven by an assignment and by an instance output. */
  method CheckBothDriven(assignments: seq<Assignment>, drivers: map<Signal, nat>,
                         ghost outputs: seq<Signal>, r: Report)
    requires drivers == Tally(map[], outputs)
    modifies r
    ensures Reports(r, Undriven(assignments, outputs, |assignments|))
  {
    var j := 0;
    while j < |assignments|
      invariant j <= |assignments| && Reports(r, Undriven(assignments, outputs, j))
    {
      TallyCounts(outputs, assignments[j].dst);
      if assignments[j].dst in drivers {
        r.Push(E_MULTI_DRIVER);
      }
      j := j + 1;
    }
  }

  predicate CountedOnce(drivers: map<Signal, nat>, pending: set<Signal>) {
    forall x | x in drivers && x !in pending :: drivers[x] <= 1
  }

  /** Signals driven by several instance outputs. */
  method CheckTwiceDriven(drivers: map<Signal, nat>, ghost outputs: seq<Signal>, r: Report)
    requires drivers == Tally(map[], outputs)
    modifies r
    ensures Reports(r, Distinct.Distinct(outputs))
  {
    var pending := drivers.Keys;
    while pending != {}
      invariant pending <= drivers.Keys && Reports(r, CountedOnce(drivers, pending))
      decreases pending
    {
      var x :| x in pending;
      if drivers[x] > 1 {
        r.Push(E_MULTI_DRIVER);
      }
      pending := pending - {x};
    }
    OnceIsDistinct(drivers, outputs);
  }

  lemma OnceIsDistinct(drivers: map<Signal, nat>, outputs: seq<Signal>)
    requires drivers == Tally(map[], outputs)
    ensures CountedOnce(drivers, {}) <==> Distinct.Distinct(outputs)
  {
    Distinct.DistinctByCount(outputs);
    forall x
      ensures x in drivers <==> x in outputs
      ensures x in drivers ==> drivers[x] == multiset(outputs)[x]
    {
      TallyCounts(outputs, x);
    }
  }

  lemma InstancesMore(d: Design, m: SourceModule, n: nat)
    requires n < |m.instances|
    ensures InstancesUpto(d, m, n + 1) <==> InstancesUpto(d, m, n) && InstanceFine(d, m, m.instances[n])
  {
  }

  /** The loop over the instances. */
  method VisitInstances(d: Design, m: SourceModule, r: Report) returns (drivers: map<Signal, nat>)
    modifies r
    ensures drivers == Tally(map[], AllOutputs(d, m, |m.instances|))
    ensures Reports(r, InstancesUpto(d, m, |m.instances|))
  {
    drivers := map[];
    var i := 0;
    while i < |m.instances|
      invariant i <= |m.instances| && drivers == Tally(map[], AllOutputs(d, m, i))
      invariant Reports(r, InstancesUpto(d, m, i))
    {
      InstancesMore(d, m, i);
      TallyBoth(map[], AllOutputs(d, m, i), OutputsOf(d, m.instances[i]));
      drivers := ValidateInstance(d, m, m.instances[i], drivers, r);
      i := i + 1;
    }
  }

  /** `validate_instances` */
  method ValidateInstances(d: Design, m: SourceModule, r: Report)
    modifies r
    ensures Reports(r, InstancesFine(d, m))
  {
    CheckNames(InstanceNames(m), false, E_INSTANCE_NAME_DUP, E_INSTANCE_NAME_DUP, r);
    var drivers := VisitInstances(d, m, r);
    ghost var outputs := AllOutputs(d, m, |m.instances|);
    CheckBothDriven(m.logic.assignments, drivers, outputs, r);
    CheckTwiceDriven(drivers, outputs, r);
    InstancesAre(d, m);
  }

  lemma InstancesAre(d: Design, m: SourceModule)
    ensures InstancesFine(d, m)
            <==> && Distinct.Distinct(InstanceNames(m)) && InstancesUpto(d, m, |m.instances|)
                 && Undriven(m.logic.assignments, AllOutputs(d, m, |m.instances|), |m.logic.assignments|)
                 && Distinct.Distinct(AllOutputs(d, m, |m.instances|))
  {
  }

  // ------------------------------------------------------------- the hierarchy

  function TargetsUpto(d: Design, m: SourceModule, n: nat): seq<string>
    requires n <= |m.instances|
  {
    if n == 0 then []
    else
      TargetsUpto(d, m, n - 1)
      + if FindModule(d, m.instances[n - 1].target).Some? then [m.instances[n - 1].target] else []
  }

  lemma {:induction false} TargetListed(d: Design, m: SourceModule, n: nat, b: string)
    requires n <= |m.instances|
    ensures b in TargetsUpto(d, m, n)
            <==> exists i | 0 <= i < n :: m.instances[i].target == b && FindModule(d, b).Some?
  {
    if n > 0 {
      TargetListed(d, m, n - 1, b);
    }
  }

  type NameGraph = map<string, seq<string>>

  function DepsIn(g: NameGraph, a: string): seq<string> {
    if a in g then g[a] else []
  }

  function TargetsOf(d: Design, k: nat): seq<string>
    requires k < |d|
  {
    TargetsUpto(d, d[k], |d[k].instances|)
  }

  predicate EntryUpto(d: Design, n: nat, a: string, b: string)
    requires n <= |d|
  {
    exists k | 0 <= k < n :: d[k].name == a && b in TargetsOf(d, k)
  }

  /** The instantiations of the first n modules. */
  ghost predicate HierarchyUpto(d: Design, g: NameGraph, n: nat)
    requires n <= |d|
  {
    forall a, b :: b in DepsIn(g, a) <==> EntryUpto(d, n, a, b)
  }

  lemma EntryStep(d: Design, n: nat, a: string, b: string)
    requires n < |d|
    ensures EntryUpto(d, n + 1, a, b) <==> EntryUpto(d, n, a, b) || (d[n].name == a && b in TargetsOf(d, n))
  {
    if k :| 0 <= k < n + 1 && d[k].name == a && b in TargetsOf(d, k) {
      assert k < n ==> EntryUpto(d, n, a, b);
    }
  }

  lemma HierarchyStep(d: Design, g: NameGraph, n: nat, after: NameGraph)
    requires n < |d| && HierarchyUpto(d, g, n)
    requires after == g[d[n].name := DepsIn(g, d[n].name) + TargetsOf(d, n)]
    ensures HierarchyUpto(d, after, n + 1)
  {
    forall a, b
      ensures b in DepsIn(after, a) <==> EntryUpto(d, n + 1, a, b)
    {
      EntryStep(d, n, a, b);
      assert b in DepsIn(g, a) <==> EntryUpto(d, n, a, b);
    }
  }

  lemma HierarchyWhole(d: Design, g: NameGraph, a: string, b: string)
    requires HierarchyUpto(d, g, |d|)
    ensures b in DepsIn(g, a) <==> Hierarchy(d)(a, b)
  {
    if k :| 0 <= k < |d| && d[k].name == a && b in TargetsOf(d, k) {
      TargetListed(d, d[k], |d[k].instances|, b);
      assert d[k] in d;
    }
    if Hierarchy(d)(a, b) {
      var m, i :| m in d && 0 <= i < |m.instances| && m.name == a
                  && m.instances[i].target == b && FindModule(d, b).Some?;
      TargetListed(d, m, |m.instances|, b);
      var k :| 0 <= k < |d| && d[k] == m;
    }
  }

  lemma CyclesAlike(r: Relation<string>, s: Relation<string>, a: string)
    requires forall x, y :: r(x, y) <==> s(x, y)
    requires ReachesCycle(r, a)
    ensures ReachesCycle(s, a)
  {
    var c :| Reaches(r, c, c) && (c == a || Reaches(r, a, c));
    ReachesSub(r, s, c, c);
    if c != a {
      ReachesSub(r, s, a, c);
    }
  }

  function ModuleNames(d: Design): seq<string> {
    seq(|d|, k requires 0 <= k < |d| => d[k].name)
  }

  method BuildHierarchy(d: Design) returns (g: NameGraph)
    ensures HierarchyUpto(d, g, |d|)
  {
    g := map[];
    var n := 0;
    while n < |d|
      invariant n <= |d| && HierarchyUpto(d, g, n)
    {
      ghost var before := g;
      g := g[d[n].name := DepsIn(g, d[n].name) + TargetsOf(d, n)];
      HierarchyStep(d, before, n, g);
      n := n + 1;
    }
  }

  predicate NoneBad(bad: seq<bool>, n: nat)
    requires n <= |bad|
  {
    forall i | 0 <= i < n :: !bad[i]
  }

  method PushBad(bad: seq<bool>, r: Report)
    modifies r
    ensures Reports(r, NoneBad(bad, |bad|))
  {
    var k := 0;
    while k < |bad|
      invariant k <= |bad| && Reports(r, NoneBad(bad, k))
    {
      if bad[k] {
        r.Push(E_HIERARCHY_CYCLE);
      }
      k := k + 1;
    }
  }

  /** `validate_hierarchy_cycles` */
  method ValidateHierarchy(d: Design, r: Report)
    modifies r
    ensures Reports(r, HierarchyFine(d))
  {
    var g := BuildHierarchy(d);
    var bad := CycleCheck.CheckHierarchy(ModuleNames(d), g);
    PushBad(bad, r);
    HierarchyVerdict(d, bad, g);
  }

  lemma HierarchyVerdict(d: Design, bad: seq<bool>, g: NameGraph)
    requires HierarchyUpto(d, g, |d|) && |bad| == |d|
    requires forall i | 0 <= i < |d| ::
               bad[i] <==> ReachesCycle(CycleCheck.Graph(g, false).Relation(), d[i].name)
    ensures NoneBad(bad, |bad|) <==> HierarchyFine(d)
  {
    var rel := CycleCheck.Graph(g, false).Relation();
    forall a, b
      ensures rel(a, b) <==> Hierarchy(d)(a, b)
    {
      HierarchyWhole(d, g, a, b);
    }
    forall i | 0 <= i < |d|
      ensures bad[i] <==> ReachesCycle(Hierarchy(d), d[i].name)
    {
      if ReachesCycle(rel, d[i].name) {
        CyclesAlike(rel, Hierarchy(d), d[i].name);
      }
      if ReachesCycle(Hierarchy(d), d[i].name) {
        CyclesAlike(Hierarchy(d), rel, d[i].name);
      }
    }
    if HierarchyFine(d) {
      forall i | 0 <= i < |d|
        ensures !bad[i]
      {
        assert d[i] in d;
      }
    }
  }

  // ---------------------------------------------------------------- the design

  /** What validation accepts of one module. */
  predicate ModuleValid(d: Design, m: SourceModule) {
    && NamesFine(m.names, true) && LogicOk(m.logic)
    && ChecksFine(m.logic, m.assertions) && ChecksFine(m.logic, m.covers)
    && InstancesFine(d, m)
  }

  /** What validation accepts, combinational cycles apart. */
  ghost predicate DesignValid(d: Design) {
    && NamesFine(ModuleNames(d), true) && HierarchyFine(d)
    && ModulesValid(d, |d|)
  }

  predicate ModulesValid(d: Design, n: nat)
    requires n <= |d|
  {
    forall k | 0 <= k < n :: ModuleValid(d, d[k])
  }

  lemma ModulesMore(d: Design, n: nat)
    requires n < |d|
    ensures ModulesValid(d, n + 1) <==> ModulesValid(d, n) && ModuleValid(d, d[n])
  {
  }

  /** In a validated design names are addresses: a module, a port and an instance are
      the one their name finds. */
  lemma NamesResolve(d: Design, k: nat)
    requires DesignValid(d) && k < |d|
    ensures d[k].name != "" && FindModule(d, d[k].name) == Some(k)
    ensures PortsResolve(d[k]) && InstancesApart(d[k])
  {
    ModuleResolves(d, k);
    assert ModuleValid(d, d[k]);
    PortsFound(d[k]);
    InstancesFound(d, d[k]);
  }

  predicate PortsResolve(m: SourceModule) {
    forall p | 0 <= p < |m.names| && m.IsPort(p) :: m.names[p] != "" && FindPort(m, m.names[p]) == Some(p)
  }

  predicate InstancesApart(m: SourceModule) {
    forall i, j | 0 <= i < j < |m.instances| :: m.instances[i].name != m.instances[j].name
  }

  lemma ModuleResolves(d: Design, k: nat)
    requires NamesFine(ModuleNames(d), true) && k < |d|
    ensures d[k].name != "" && FindModule(d, d[k].name) == Some(k)
  {
    var found := FindModule(d, d[k].name).value;
    assert ModuleNames(d)[k] == d[k].name && ModuleNames(d)[found] == d[found].name;
  }

  lemma PortsFound(m: SourceModule)
    requires NamesFine(m.names, true)
    ensures PortsResolve(m)
  {
    forall p | 0 <= p < |m.names| && m.IsPort(p)
      ensures FindPort(m, m.names[p]) == Some(p)
    {
      PortByName(m, p);
    }
  }

  lemma InstancesFound(d: Design, m: SourceModule)
    requires InstancesFine(d, m)
    ensures InstancesApart(m)
  {
    forall i, j | 0 <= i < j < |m.instances|
      ensures m.instances[i].name != m.instances[j].name
    {
      assert InstanceNames(m)[i] != InstanceNames(m)[j];
    }
  }

  /** `validate_module`, without the checks of state, bundle and interface types,
      of widths and initial values, and of combinational cycles. */
  method ValidateModule(d: Design, m: SourceModule, r: Report)
    modifies r
    ensures Reports(r, ModuleValid(d, m))
  {
    CheckNames(m.names, true, E_SIGNAL_NAME_EMPTY, E_SIGNAL_NAME_DUP, r);
    ValidateLogic(m.logic, r);
    ValidateChecks(m.logic, m.assertions, r);
    ValidateChecks(m.logic, m.covers, r);
    ValidateInstances(d, m, r);
  }

  method ValidateModules(d: Design, r: Report)
    modifies r
    ensures Reports(r, ModulesValid(d, |d|))
  {
    var k := 0;
    while k < |d|
      invariant k <= |d| && Reports(r, ModulesValid(d, k))
    {
      ModulesMore(d, k);
      ValidateModule(d, d[k], r);
      k := k + 1;
    }
  }

  /** `validate_design` */
  method ValidateDesign(d: Design, r: Report)
    modifies r
    ensures Reports(r, DesignValid(d))
  {
    CheckNames(ModuleNames(d), true, E_MODULE_NAME_EMPTY, E_MODULE_NAME_DUP, r);
    ValidateHierarchy(d, r);
    ValidateModules(d, r);
  }

  /** So a validated design meets the hypotheses of the elaboration theorems. */
  lemma ValidIsFine(d: Design)
    requires DesignValid(d)
    ensures ModulesFine(d) && HierarchyFine(d)
  {
    forall m | m in d
      ensures ModuleFine(d, m)
    {
      var k :| 0 <= k < |d| && d[k] == m;
      assert ModuleValid(d, d[k]);
    }
  }

  // ------------------------------------------------------- compiled structures

  datatype CompiledExpr = CompiledExpr(expr: Expr, ty: BitType)
  datatype CompiledAssignment = CompiledAssignment(dst: Signal, expr: CompiledExpr)
  datatype CompiledRegister =
    CompiledRegister(signal: Signal, clock: Signal, reset: Option<Reset>, next: CompiledExpr)
  datatype CompiledMemoryWrite = CompiledMemoryWrite(
    mem: Signal, clock: Signal, enable: CompiledExpr, addr: CompiledExpr, data: CompiledExpr)

  datatype CompiledCheck =
    CompiledCheck(name: string, clock: Option<Signal>, enable: Option<CompiledExpr>, condition: CompiledExpr)

  datatype CompiledConnection = CompiledConnection(port: string, signal: Signal, input: bool, ty: BitType)

  datatype CompiledInstance =
    CompiledInstance(name: string, target: string, connections: seq<CompiledConnection>)

  datatype CompiledModule = CompiledModule(
    assignments: seq<CompiledAssignment>,
    registers: seq<CompiledRegister>,
    memoryWrites: seq<CompiledMemoryWrite>,
    assertions: seq<CompiledCheck>,
    covers: seq<CompiledCheck>,
    instances: seq<CompiledInstance>)

  datatype CompileResult<T> = Compiled(c: T) | Failed(codes: seq<Code>)

  /** The compiled expression is the source expression with its type. */
  predicate Faithful(m: Module, c: CompiledExpr, e: Expr) {
    c.expr == e && TypeOf(m, e) == Some(c.ty)
  }

  predicate SameWrite(m: Module, c: CompiledMemoryWrite, w: MemoryWrite) {
    && c.mem == w.mem && c.clock == w.clock
    && Faithful(m, c.enable, w.enable) && Faithful(m, c.addr, w.addr) && Faithful(m, c.data, w.data)
  }

  /** The registers among the first n signals, in order. */
  function Registers(m: Module, n: nat): seq<nat>
    requires n <= |m.signals|
  {
    if n == 0 then []
    else Registers(m, n - 1) + if m.signals[n - 1].kind.Reg? then [n - 1] else []
  }

  predicate SameRegister(m: Module, c: CompiledRegister, i: nat) {
    && i < |m.signals| && m.signals[i].kind.Reg?
    && c.signal == m.Handle(i) && m.signals[i].kind.clock == Some(c.clock)
    && c.reset == m.signals[i].kind.reset
    && m.signals[i].kind.next == Some(c.next.expr) && Faithful(m, c.next, c.next.expr)
  }

  predicate SameCheck(m: Module, c: CompiledCheck, check: Check) {
    && c.name == check.name && c.clock == check.clock && Faithful(m, c.condition, check.condition)
    && (c.enable.Some? <==> check.enable.Some?)
    && (c.enable.Some? ==> Faithful(m, c.enable.value, check.enable.value))
  }

  /** The compiled connection names the port and says its direction and type. */
  predicate SameConnection(target: SourceModule, c: CompiledConnection, source: PortConnection) {
    var port := FindPort(target, source.port);
    && c.port == source.port && c.signal == source.signal && port.Some?
    && c.input == target.logic.signals[port.value].kind.Input?
    && c.ty == target.logic.signals[port.value].ty
  }

  predicate SameConnections(target: SourceModule, cs: seq<CompiledConnection>, source: seq<PortConnection>) {
    |cs| == |source| && forall k | 0 <= k < |cs| :: SameConnection(target, cs[k], source[k])
  }

  predicate SameInstance(d: Design, c: CompiledInstance, inst: SourceInstance) {
    var target := FindModule(d, inst.target);
    && c.name == inst.name && c.target == inst.target && target.Some?
    && SameConnections(d[target.value], c.connections, inst.connections)
  }

  predicate SameAssignment(m: Module, c: CompiledAssignment, a: Assignment) {
    c.dst == a.dst && Faithful(m, c.expr, a.expr)
  }

  /** Everything of the module is in the compiled module, in order. */
  predicate LosesNothing(d: Design, m: SourceModule, c: CompiledModule) {
    var logic := m.logic;
    && |c.assignments| == |logic.assignments|
    && (forall i | 0 <= i < |logic.assignments| ::
          SameAssignment(logic, c.assignments[i], logic.assignments[i]))
    && RegistersKept(logic, c.registers, |logic.signals|)
    && |c.memoryWrites| == |logic.memoryWrites|
    && (forall i | 0 <= i < |logic.memoryWrites| ::
          SameWrite(logic, c.memoryWrites[i], logic.memoryWrites[i]))
    && ChecksKept(logic, c.assertions, m.assertions) && ChecksKept(logic, c.covers, m.covers)
    && |c.instances| == |m.instances|
    && (forall i | 0 <= i < |m.instances| :: SameInstance(d, c.instances[i], m.instances[i]))
  }

  predicate ChecksKept(m: Module, cs: seq<CompiledCheck>, checks: seq<Check>) {
    |cs| == |checks| && forall k | 0 <= k < |cs| :: SameCheck(m, cs[k], checks[k])
  }

  // -------------------------------------------------------------- compilation

  /** `compile_expr` */
  method CompileExpr(m: Module, e: Expr, r: Report) returns (c: Option<CompiledExpr>)
    modifies r
    ensures Reports(r, WellTyped(m, e))
    ensures c.Some? ==> Faithful(m, c.value, e)
    ensures c.None? ==> TypeOf(m, e).None?
  {
    var ty := ExprType(m, e, r);
    c := if ty.Some? then Some(CompiledExpr(e, ty.value)) else None;
  }

  predicate ExprsTyped(m: Module, n: nat)
    requires n <= |m.assignments|
  {
    forall k | 0 <= k < n :: WellTyped(m, m.assignments[k].expr)
  }

  /** Everything before n is compiled, unless one of those has no type. */
  predicate CompiledAssigns(m: Module, cs: seq<CompiledAssignment>, n: nat)
    requires n <= |m.assignments|
  {
    ExprsTyped(m, n) ==>
      |cs| == n && forall i | 0 <= i < n :: SameAssignment(m, cs[i], m.assignments[i])
  }

  lemma MoreAssignments(m: Module, cs: seq<CompiledAssignment>, n: nat, c: Option<CompiledExpr>)
    requires n < |m.assignments| && CompiledAssigns(m, cs, n)
    requires c.Some? ==> Faithful(m, c.value, m.assignments[n].expr)
    requires c.None? ==> TypeOf(m, m.assignments[n].expr).None?
    ensures CompiledAssigns(m, if c.Some? then cs + [CompiledAssignment(m.assignments[n].dst, c.value)] else cs,
                            n + 1)
    ensures ExprsTyped(m, n + 1) <==> ExprsTyped(m, n) && WellTyped(m, m.assignments[n].expr)
  {
  }

  lemma AllExprsTyped(m: Module)
    ensures ExprsTyped(m, |m.assignments|) <==> forall a | a in m.assignments :: WellTyped(m, a.expr)
  {
  }

  /** The `filter_map` over the assignments. */
  method CompileAssignments(m: Module, r: Report) returns (cs: seq<CompiledAssignment>)
    modifies r
    ensures Reports(r, forall a | a in m.assignments :: WellTyped(m, a.expr))
    ensures (forall a | a in m.assignments :: WellTyped(m, a.expr)) ==>
              && |cs| == |m.assignments|
              && forall i | 0 <= i < |cs| ::
                   SameAssignment(m, cs[i], m.assignments[i])
  {
    cs := [];
    var j := 0;
    while j < |m.assignments|
      invariant j <= |m.assignments|
      invariant Reports(r, ExprsTyped(m, j))
      invariant CompiledAssigns(m, cs, j)
    {
      var c := CompileExpr(m, m.assignments[j].expr, r);
      MoreAssignments(m, cs, j, c);
      if c.Some? {
        cs := cs + [CompiledAssignment(m.assignments[j].dst, c.value)];
      }
      j := j + 1;
    }
    AllExprsTyped(m);
  }

  predicate WriteTyped(m: Module, w: MemoryWrite) {
    WellTyped(m, w.enable) && WellTyped(m, w.addr) && WellTyped(m, w.data)
  }

  /** One memory write; the `?` stops at the first missing type. */
  method CompileWrite(m: Module, w: MemoryWrite, r: Report) returns (c: Option<CompiledMemoryWrite>)
    modifies r
    ensures Reports(r, WriteTyped(m, w))
    ensures c.Some? ==> SameWrite(m, c.value, w)
    ensures WriteTyped(m, w) ==> c.Some?
  {
    c := None;
    var enable := CompileExpr(m, w.enable, r);
    if enable.Some? {
      var addr := CompileExpr(m, w.addr, r);
      if addr.Some? {
        var data := CompileExpr(m, w.data, r);
        if data.Some? {
          c := Some(CompiledMemoryWrite(w.mem, w.clock, enable.value, addr.value, data.value));
        }
      }
    }
  }

  predicate WritesTyped(m: Module, n: nat)
    requires n <= |m.memoryWrites|
  {
    forall k | 0 <= k < n :: WriteTyped(m, m.memoryWrites[k])
  }

  predicate CompiledWrites(m: Module, cs: seq<CompiledMemoryWrite>, n: nat)
    requires n <= |m.memoryWrites|
  {
    WritesTyped(m, n) ==> |cs| == n && forall i | 0 <= i < n :: SameWrite(m, cs[i], m.memoryWrites[i])
  }

  lemma MoreWrites(m: Module, cs: seq<CompiledMemoryWrite>, n: nat, c: Option<CompiledMemoryWrite>)
    requires n < |m.memoryWrites| && CompiledWrites(m, cs, n)
    requires c.Some? ==> SameWrite(m, c.value, m.memoryWrites[n])
    requires WriteTyped(m, m.memoryWrites[n]) ==> c.Some?
    ensures CompiledWrites(m, if c.Some? then cs + [c.value] else cs, n + 1)
    ensures WritesTyped(m, n + 1) <==> WritesTyped(m, n) && WriteTyped(m, m.memoryWrites[n])
  {
    OneMoreTyped(m, n);
    if WritesTyped(m, n + 1) {
      OneMoreCompiled(m, cs, n, c.value);
    }
  }

  lemma OneMoreTyped(m: Module, n: nat)
    requires n < |m.memoryWrites|
    ensures WritesTyped(m, n + 1) <==> WritesTyped(m, n) && WriteTyped(m, m.memoryWrites[n])
  {
  }

  lemma OneMoreCompiled(m: Module, cs: seq<CompiledMemoryWrite>, n: nat, c: CompiledMemoryWrite)
    requires n < |m.memoryWrites| && WritesTyped(m, n) && CompiledWrites(m, cs, n)
    requires SameWrite(m, c, m.memoryWrites[n])
    ensures CompiledWrites(m, cs + [c], n + 1)
  {
    var more := cs + [c];
    forall i | 0 <= i < n + 1
      ensures SameWrite(m, more[i], m.memoryWrites[i])
    {
      if i < n {
        assert more[i] == cs[i];
      }
    }
  }

  lemma AllWritesTyped(m: Module)
    ensures WritesTyped(m, |m.memoryWrites|) <==> forall w | w in m.memoryWrites :: WriteTyped(m, w)
  {
  }

  method CompileWrites(m: Module, r: Report) returns (cs: seq<CompiledMemoryWrite>)
    modifies r
    ensures Reports(r, forall w | w in m.memoryWrites :: WriteTyped(m, w))
    ensures (forall w | w in m.memoryWrites :: WriteTyped(m, w)) ==>
              && |cs| == |m.memoryWrites|
              && forall i | 0 <= i < |cs| :: SameWrite(m, cs[i], m.memoryWrites[i])
  {
    cs := [];
    var j := 0;
    while j < |m.memoryWrites|
      invariant j <= |m.memoryWrites|
      invariant Reports(r, WritesTyped(m, j))
      invariant CompiledWrites(m, cs, j)
    {
      var c := CompileWrite(m, m.memoryWrites[j], r);
      MoreWrites(m, cs, j, c);
      if c.Some? {
        cs := cs + [c.value];
      }
      j := j + 1;
    }
    AllWritesTyped(m);
  }

  /** A register whose next state, if any, is well typed; one without a clock is
      skipped before its next state is looked at. */
  predicate RegisterTyped(m: Module, info: SignalInfo)
    requires info.kind.Reg?
  {
    info.kind.clock.Some? && info.kind.next.Some? ==> WellTyped(m, info.kind.next.value)
  }

  predicate RegisterWhole(info: SignalInfo)
    requires info.kind.Reg?
  {
    info.kind.clock.Some? && info.kind.next.Some?
  }

  method CompileRegister(m: Module, i: nat, r: Report) returns (c: Option<CompiledRegister>)
    requires i < |m.signals| && m.signals[i].kind.Reg?
    modifies r
    ensures Reports(r, RegisterTyped(m, m.signals[i]))
    ensures c.Some? ==> SameRegister(m, c.value, i)
    ensures RegisterWhole(m.signals[i]) && RegisterTyped(m, m.signals[i]) ==> c.Some?
  {
    c := None;
    var kind := m.signals[i].kind;
    if kind.clock.Some? && kind.next.Some? {
      var next := CompileExpr(m, kind.next.value, r);
      if next.Some? {
        c := Some(CompiledRegister(m.Handle(i), kind.clock.value, kind.reset, next.value));
      }
    }
  }

  predicate RegistersTyped(m: Module, n: nat)
    requires n <= |m.signals|
  {
    forall i | 0 <= i < n && m.signals[i].kind.Reg? :: RegisterTyped(m, m.signals[i])
  }

  predicate RegistersWhole(m: Module, n: nat)
    requires n <= |m.signals|
  {
    forall i | 0 <= i < n && m.signals[i].kind.Reg? :: RegisterWhole(m.signals[i])
  }

  predicate RegistersKept(m: Module, cs: seq<CompiledRegister>, n: nat)
    requires n <= |m.signals|
  {
    |cs| == |Registers(m, n)| && forall i | 0 <= i < |cs| :: SameRegister(m, cs[i], Registers(m, n)[i])
  }

  method CompileRegisters(m: Module, r: Report) returns (cs: seq<CompiledRegister>)
    modifies r
    ensures Reports(r, RegistersTyped(m, |m.signals|))
    ensures RegistersTyped(m, |m.signals|) && RegistersWhole(m, |m.signals|) ==>
              RegistersKept(m, cs, |m.signals|)
  {
    cs := [];
    var i := 0;
    while i < |m.signals|
      invariant i <= |m.signals| && Reports(r, RegistersTyped(m, i))
      invariant RegistersTyped(m, i) && RegistersWhole(m, i) ==> RegistersKept(m, cs, i)
    {
      if m.signals[i].kind.Reg? {
        var c := CompileRegister(m, i, r);
        if c.Some? {
          cs := cs + [c.value];
        }
      }
      i := i + 1;
    }
  }

  predicate CheckTyped(m: Module, c: Check) {
    (c.enable.Some? ==> WellTyped(m, c.enable.value)) && WellTyped(m, c.condition)
  }

  method CompileCheck(m: Module, c: Check, r: Report) returns (compiled: Option<CompiledCheck>)
    modifies r
    ensures Reports(r, CheckTyped(m, c))
    ensures compiled.Some? ==> SameCheck(m, compiled.value, c)
    ensures CheckTyped(m, c) ==> compiled.Some?
  {
    compiled := None;
    var enable: Option<CompiledExpr> := None;
    if c.enable.Some? {
      enable := CompileExpr(m, c.enable.value, r);
      if enable.None? {
        return;
      }
    }
    var condition := CompileExpr(m, c.condition, r);
    if condition.Some? {
      compiled := Some(CompiledCheck(c.name, c.clock, enable, condition.value));
    }
  }

  predicate ChecksTyped(m: Module, checks: seq<Check>, n: nat)
    requires n <= |checks|
  {
    forall k | 0 <= k < n :: CheckTyped(m, checks[k])
  }

  method CompileChecks(m: Module, checks: seq<Check>, r: Report) returns (cs: seq<CompiledCheck>)
    modifies r
    ensures Reports(r, ChecksTyped(m, checks, |checks|))
    ensures ChecksTyped(m, checks, |checks|) ==> ChecksKept(m, cs, checks)
  {
    cs := [];
    var k := 0;
    while k < |checks|
      invariant k <= |checks| && Reports(r, ChecksTyped(m, checks, k))
      invariant ChecksTyped(m, checks, k) ==> ChecksKept(m, cs, checks[..k])
    {
      var c := CompileCheck(m, checks[k], r);
      if c.Some? {
        cs := cs + [c.value];
      }
      assert checks[..k + 1] == checks[..k] + [checks[k]];
      k := k + 1;
    }
    assert checks[..|checks|] == checks;
  }

  /** The signal of a connection to an existing port belongs to the module; a
      connection to a missing port is dropped without a diagnostic. */
  predicate ConnectionOwned(m: Module, target: SourceModule, c: PortConnection) {
    FindPort(target, c.port).Some? ==> m.Owns(c.signal)
  }

  predicate ConnectionsOwned(m: Module, target: SourceModule, conns: seq<PortConnection>, n: nat)
    requires n <= |conns|
  {
    forall k | 0 <= k < n :: ConnectionOwned(m, target, conns[k])
  }

  predicate PortsExist(target: SourceModule, conns: seq<PortConnection>, n: nat)
    requires n <= |conns|
  {
    forall k | 0 <= k < n :: FindPort(target, conns[k].port).Some?
  }

  method CompileConnections(m: Module, target: SourceModule, conns: seq<PortConnection>, r: Report)
    returns (cs: seq<CompiledConnection>)
    modifies r
    ensures Reports(r, ConnectionsOwned(m, target, conns, |conns|))
    ensures ConnectionsOwned(m, target, conns, |conns|) && PortsExist(target, conns, |conns|) ==>
              SameConnections(target, cs, conns)
  {
    cs := [];
    var k := 0;
    while k < |conns|
      invariant k <= |conns| && Reports(r, ConnectionsOwned(m, target, conns, k))
      invariant ConnectionsOwned(m, target, conns, k) && PortsExist(target, conns, k) ==>
                  SameConnections(target, cs, conns[..k])
    {
      var port := FindPort(target, conns[k].port);
      if port.Some? {
        if m.Owns(conns[k].signal) {
          var info := target.logic.signals[port.value];
          cs := cs + [CompiledConnection(conns[k].port, conns[k].signal, info.kind.Input?, info.ty)];
        } else {
          r.Push(E_COMPILE_INSTANCE_SIGNAL);
        }
      }
      assert conns[..k + 1] == conns[..k] + [conns[k]];
      k := k + 1;
    }
    assert conns[..|conns|] == conns;
  }

  /** An instance of a missing module is dropped without a diagnostic. */
  predicate InstanceOwned(d: Design, m: Module, inst: SourceInstance) {
    var target := FindModule(d, inst.target);
    target.Some? ==> ConnectionsOwned(m, d[target.value], inst.connections, |inst.connections|)
  }

  predicate InstanceWhole(d: Design, inst: SourceInstance) {
    var target := FindModule(d, inst.target);
    target.Some? && PortsExist(d[target.value], inst.connections, |inst.connections|)
  }

  /** `compile_instance` */
  method CompileInstance(d: Design, m: Module, inst: SourceInstance, r: Report)
    returns (c: Option<CompiledInstance>)
    modifies r
    ensures Reports(r, InstanceOwned(d, m, inst))
    ensures c.Some? <==> FindModule(d, inst.target).Some?
    ensures InstanceOwned(d, m, inst) && InstanceWhole(d, inst) ==> c.Some? && SameInstance(d, c.value, inst)
  {
    var target := FindModule(d, inst.target);
    if target.None? {
      return None;
    }
    var connections := CompileConnections(m, d[target.value], inst.connections, r);
    c := Some(CompiledInstance(inst.name, inst.target, connections));
  }

  predicate InstancesOwned(d: Design, m: SourceModule, n: nat)
    requires n <= |m.instances|
  {
    forall i | 0 <= i < n :: InstanceOwned(d, m.logic, m.instances[i])
  }

  predicate InstancesWhole(d: Design, m: SourceModule, n: nat)
    requires n <= |m.instances|
  {
    forall i | 0 <= i < n :: InstanceWhole(d, m.instances[i])
  }

  predicate InstancesKept(d: Design, cs: seq<CompiledInstance>, m: SourceModule, n: nat)
    requires n <= |m.instances|
  {
    |cs| == n && forall i | 0 <= i < n :: SameInstance(d, cs[i], m.instances[i])
  }

  method CompileInstances(d: Design, m: SourceModule, r: Report) returns (cs: seq<CompiledInstance>)
    modifies r
    ensures Reports(r, InstancesOwned(d, m, |m.instances|))
    ensures InstancesOwned(d, m, |m.instances|) && InstancesWhole(d, m, |m.instances|) ==>
              InstancesKept(d, cs, m, |m.instances|)
  {
    cs := [];
    var i := 0;
    while i < |m.instances|
      invariant i <= |m.instances| && Reports(r, InstancesOwned(d, m, i))
      invariant InstancesOwned(d, m, i) && InstancesWhole(d, m, i) ==> InstancesKept(d, cs, m, i)
    {
      var c := CompileInstance(d, m.logic, m.instances[i], r);
      if c.Some? {
        cs := cs + [c.value];
      }
      i := i + 1;
    }
  }

  /** Every expression of the module is well typed and every connected signal is
      the module's own. */
  predicate AllTyped(d: Design, m: SourceModule) {
    && (forall a | a in m.logic.assignments :: WellTyped(m.logic, a.expr))
    && RegistersTyped(m.logic, |m.logic.signals|)
    && (forall w | w in m.logic.memoryWrites :: WriteTyped(m.logic, w))
    && ChecksTyped(m.logic, m.assertions, |m.assertions|)
    && ChecksTyped(m.logic, m.covers, |m.covers|)
    && InstancesOwned(d, m, |m.instances|)
  }

  /** Nothing is of the kind that compilation skips silently. */
  predicate AllWhole(d: Design, m: SourceModule) {
    RegistersWhole(m.logic, |m.logic.signals|) && InstancesWhole(d, m, |m.instances|)
  }

  /** `compile_module` */
  method CompileModule(d: Design, m: SourceModule) returns (c: CompileResult<CompiledModule>)
    ensures c.Compiled? <==> AllTyped(d, m)
    ensures c.Compiled? && AllWhole(d, m) ==> LosesNothing(d, m, c.c)
    ensures c.Failed? ==> c.codes != []
  {
    var r := new Report();
    var assignments := CompileAssignments(m.logic, r);
    var registers := CompileRegisters(m.logic, r);
    var writes := CompileWrites(m.logic, r);
    var assertions := CompileChecks(m.logic, m.assertions, r);
    var covers := CompileChecks(m.logic, m.covers, r);
    var instances := CompileInstances(d, m, r);
    c := if r.codes == []
         then Compiled(CompiledModule(assignments, registers, writes, assertions, covers, instances))
         else Failed(r.codes);
  }

  lemma ValidInstance(d: Design, m: SourceModule, inst: SourceInstance)
    requires InstanceFine(d, m, inst)
    ensures InstanceOwned(d, m.logic, inst) && InstanceWhole(d, inst)
  {
    var target := d[FindModule(d, inst.target).value];
    forall k | 0 <= k < |inst.connections|
      ensures FindPort(target, inst.connections[k].port).Some? && m.logic.Owns(inst.connections[k].signal)
    {
      assert ConnectionFine(m, target, inst.connections[k]);
    }
  }

  lemma ValidLogic(m: Module)
    requires LogicOk(m)
    ensures forall a | a in m.assignments :: WellTyped(m, a.expr)
    ensures RegistersTyped(m, |m.signals|) && RegistersWhole(m, |m.signals|)
    ensures forall w | w in m.memoryWrites :: WriteTyped(m, w)
  {
    forall a | a in m.assignments
      ensures WellTyped(m, a.expr)
    {
      assert AssignmentOk(m, a);
    }
    forall w | w in m.memoryWrites
      ensures WriteTyped(m, w)
    {
      assert WriteOk(m, w);
    }
    forall i | 0 <= i < |m.signals| && m.signals[i].kind.Reg?
      ensures RegisterTyped(m, m.signals[i]) && RegisterWhole(m.signals[i])
    {
      assert RegisterOk(m, m.signals[i]);
    }
  }

  lemma ValidChecks(m: Module, checks: seq<Check>)
    requires ChecksFine(m, checks)
    ensures ChecksTyped(m, checks, |checks|)
  {
    forall k | 0 <= k < |checks|
      ensures CheckTyped(m, checks[k])
    {
      assert CheckOk(m, checks[k]);
    }
  }

  /** A validated module has nothing compilation could complain about or skip. */
  lemma ValidCompiles(d: Design, m: SourceModule)
    requires ModuleValid(d, m)
    ensures AllTyped(d, m) && AllWhole(d, m)
  {
    ValidLogic(m.logic);
    ValidChecks(m.logic, m.assertions);
    ValidChecks(m.logic, m.covers);
    forall i | 0 <= i < |m.instances|
      ensures InstanceOwned(d, m.logic, m.instances[i]) && InstanceWhole(d, m.instances[i])
    {
      ValidInstance(d, m, m.instances[i]);
    }
  }

  /** Nothing of the first n modules is lost. */
  predicate ModulesKept(d: Design, cs: seq<CompiledModule>, n: nat)
    requires n <= |d|
  {
    |cs| == n && forall k | 0 <= k < n :: LosesNothing(d, d[k], cs[k])
  }

  lemma KeptMore(d: Design, cs: seq<CompiledModule>, c: CompiledModule)
    requires |cs| < |d| && ModulesKept(d, cs, |cs|) && LosesNothing(d, d[|cs|], c)
    ensures ModulesKept(d, cs + [c], |cs| + 1)
  {
    var all := cs + [c];
    forall k | 0 <= k < |cs| + 1
      ensures LosesNothing(d, d[k], all[k])
    {
      assert k < |cs| ==> all[k] == cs[k] && LosesNothing(d, d[k], cs[k]);
    }
  }

  /** One module of a validated design. */
  method CompileValid(d: Design, m: SourceModule) returns (c: CompiledModule)
    requires ModuleValid(d, m)
    ensures LosesNothing(d, m, c)
  {
    ValidCompiles(d, m);
    var compiled := CompileModule(d, m);
    c := compiled.c;
  }

  /** `compile_ir`: once a design has been validated compilation cannot fail, and it
      drops nothing of any module. */
  method CompileIr(d: Design) returns (c: CompileResult<seq<CompiledModule>>)
    ensures c.Compiled? <==> DesignValid(d)
    ensures c.Compiled? ==> ModulesKept(d, c.c, |d|)
    ensures c.Failed? ==> c.codes != []
  {
    var r := new Report();
    ValidateDesign(d, r);
    if r.codes != [] {
      return Failed(r.codes);
    }
    var modules := CompileModules(d);
    c := Compiled(modules);
  }

  method CompileModules(d: Design) returns (cs: seq<CompiledModule>)
    requires ModulesValid(d, |d|)
    ensures ModulesKept(d, cs, |d|)
  {
    cs := [];
    while |cs| < |d|
      invariant |cs| <= |d| && ModulesKept(d, cs, |cs|)
    {
      var compiled := CompileValid(d, d[|cs|]);
      KeptMore(d, cs, compiled);
      cs := cs + [compiled];
    }
  }
}
