/** The flattened design: one module holding every signal, assignment, connection
    and memory write of a hierarchy, and the picture of a hierarchical state in
    it. */
module FlatDesign {
  import opened Words
  import opened Rtl
  import opened Semantics
  import opened Simulation
  import opened Runs
  import opened Flatten

  // ------------------------------------------------------------ enumerations

  ghost function Enumerate<T(!new)>(s: set<T>): (q: seq<T>)
    ensures forall x :: x in q <==> x in s
    ensures forall i, j | 0 <= i < j < |q| :: q[i] != q[j]
    decreases s
  {
    if s == {} then []
    else
      var x :| x in s;
      var rest := Enumerate(s - {x});
      assert forall y :: y in [x] + rest <==> y == x || y in rest;
      [x] + rest
  }

  /** Every place in the hierarchy. */
  function AllPaths(t: Tree): set<Path>
    decreases t
  {
    {[]} + set i, p | 0 <= i < |t.instances| && p in AllPaths(t.Child(i)) :: [i] + p
  }

  lemma {:induction false} PathsAreValid(t: Tree, p: Path)
    ensures p in AllPaths(t) <==> ValidPath(t, p)
    decreases |p|
  {
    if p != [] {
      assert p == [p[0]] + p[1..];
      if p[0] < |t.instances| {
        PathsAreValid(t.Child(p[0]), p[1..]);
      }
    }
  }

  /** The module at a path, or an empty one. */
  function ModuleAt(t: Tree, p: Path): Module {
    if ValidPath(t, p) then At(t, p).m else Module(0, [], [], [], [], [])
  }

  function InstancesAt(t: Tree, p: Path): seq<Instance> {
    if ValidPath(t, p) then At(t, p).instances else []
  }

  predicate IsNode(t: Tree, n: Node) {
    ValidPath(t, n.path) && At(t, n.path).m.Owns(n.signal)
  }

  function AllNodes(t: Tree): set<Node> {
    set p, k | p in AllPaths(t) && 0 <= k < |ModuleAt(t, p).signals|
      :: Node(p, ModuleAt(t, p).Handle(k))
  }

  lemma NodesAreSignals(t: Tree, n: Node)
    ensures n in AllNodes(t) <==> IsNode(t, n)
  {
    PathsAreValid(t, n.path);
    if IsNode(t, n) {
      assert ModuleAt(t, n.path).Handle(n.signal.id) == n.signal;
    }
  }

  ghost function Nodes(t: Tree): seq<Node> {
    Enumerate(AllNodes(t))
  }

  /** The number of a signal in the flattened module. */
  ghost function Index(t: Tree, n: Node): (k: nat)
    ensures IsNode(t, n) ==> k < |Nodes(t)| && Nodes(t)[k] == n
    ensures !IsNode(t, n) ==> k == |Nodes(t)|
  {
    NodesAreSignals(t, n);
    if IsNode(t, n) then var k :| 0 <= k < |Nodes(t)| && Nodes(t)[k] == n; k
    else |Nodes(t)|
  }

  lemma NodeAt(t: Tree, k: nat)
    requires k < |Nodes(t)|
    ensures IsNode(t, Nodes(t)[k]) && Index(t, Nodes(t)[k]) == k
  {
    NodesAreSignals(t, Nodes(t)[k]);
  }

  const FLAT: nat := 0

  /** The flat handle of a signal of the module at path p. */
  ghost function Moved(t: Tree, p: Path, x: Signal): Signal {
    Signal(FLAT, Index(t, Node(p, x)))
  }

  /** Different signals stay different. */
  lemma MovedInjective(t: Tree, a: Node, b: Node)
    requires IsNode(t, a) && IsNode(t, b)
    requires Moved(t, a.path, a.signal) == Moved(t, b.path, b.signal)
    ensures a == b
  {
    assert a == Node(a.path, a.signal) && b == Node(b.path, b.signal);
  }

  // -------------------------------------------------------------- renaming

  ghost function MovedExpr(t: Tree, p: Path, e: Expr): (r: Expr)
    decreases e
  {
    match e
    case Lit(_, _) => e
    case Ref(x) => Ref(Moved(t, p, x))
    case Not(inner) => Not(MovedExpr(t, p, inner))
    case Bits(op, l, r) => Bits(op, MovedExpr(t, p, l), MovedExpr(t, p, r))
    case Arith(op, l, r) => Arith(op, MovedExpr(t, p, l), MovedExpr(t, p, r))
    case Compare(op, l, r) => Compare(op, MovedExpr(t, p, l), MovedExpr(t, p, r))
    case Mux(c, a, b) => Mux(MovedExpr(t, p, c), MovedExpr(t, p, a), MovedExpr(t, p, b))
    case Slice(inner, lsb, width) => Slice(MovedExpr(t, p, inner), lsb, width)
    case Zext(inner, width) => Zext(MovedExpr(t, p, inner), width)
    case Sext(inner, width) => Sext(MovedExpr(t, p, inner), width)
    case Trunc(inner, width) => Trunc(MovedExpr(t, p, inner), width)
    case Cast(inner, signedness) => Cast(MovedExpr(t, p, inner), signedness)
    case Concat(parts) => Concat(MovedParts(t, p, parts))
    case MemRead(mem, addr) => MemRead(Moved(t, p, mem), MovedExpr(t, p, addr))
  }

  ghost function MovedParts(t: Tree, p: Path, parts: seq<Expr>): (r: seq<Expr>)
    ensures |r| == |parts|
    decreases parts
  {
    if parts == [] then [] else [MovedExpr(t, p, parts[0])] + MovedParts(t, p, parts[1..])
  }

  ghost function MovedKind(t: Tree, p: Path, kind: SignalKind): SignalKind {
    match kind
    case Input => if p == [] then Input else Wire
    case Output => if p == [] then Output else Wire
    case Wire => Wire
    case Reg(clock, reset, next) =>
      Reg(if clock.Some? then Some(Moved(t, p, clock.value)) else None,
          if reset.Some? then Some(reset.value.(signal := Moved(t, p, reset.value.signal))) else None,
          if next.Some? then Some(MovedExpr(t, p, next.value)) else None)
    case Mem(addrWidth, depth) => Mem(addrWidth, depth)
  }

  ghost function MovedInfo(t: Tree, n: Node): SignalInfo
    requires IsNode(t, n)
  {
    var info := At(t, n.path).m.signals[n.signal.id];
    SignalInfo(info.ty, MovedKind(t, n.path, info.kind))
  }

  // ---------------------------------------------------------------- drivers

  /** What drives a flat signal: an assignment, an output connection (towards the
      parent) or an input connection (towards the child). */
  datatype Driver =
    | ByAssign(path: Path, index: nat)
    | ByOutput(path: Path, inst: nat, index: nat)
    | ByInput(path: Path, inst: nat, index: nat)

  predicate IsDriver(t: Tree, d: Driver) {
    && ValidPath(t, d.path)
    && match d
       case ByAssign(p, j) => j < |At(t, p).m.assignments|
       case ByOutput(p, i, o) => i < |At(t, p).instances| && o < |At(t, p).instances[i].outputs|
       case ByInput(p, i, k) => i < |At(t, p).instances| && k < |At(t, p).instances[i].inputs|
  }

  function OutputsAt(t: Tree, p: Path, i: nat): seq<Conn> {
    if i < |InstancesAt(t, p)| then InstancesAt(t, p)[i].outputs else []
  }

  function InputsAt(t: Tree, p: Path, i: nat): seq<Conn> {
    if i < |InstancesAt(t, p)| then InstancesAt(t, p)[i].inputs else []
  }

  function AllDrivers(t: Tree): set<Driver> {
    (set p, j | p in AllPaths(t) && 0 <= j < |ModuleAt(t, p).assignments| :: ByAssign(p, j))
    + (set p, i, o | p in AllPaths(t) && 0 <= i < |InstancesAt(t, p)| && 0 <= o < |OutputsAt(t, p, i)|
         :: ByOutput(p, i, o))
    + (set p, i, k | p in AllPaths(t) && 0 <= i < |InstancesAt(t, p)| && 0 <= k < |InputsAt(t, p, i)|
         :: ByInput(p, i, k))
  }

  lemma DriversAreAll(t: Tree, d: Driver)
    ensures d in AllDrivers(t) <==> IsDriver(t, d)
  {
    PathsAreValid(t, d.path);
    if IsDriver(t, d) && d.ByOutput? {
      assert d.index < |OutputsAt(t, d.path, d.inst)|;
    }
    if IsDriver(t, d) && d.ByInput? {
      assert d.index < |InputsAt(t, d.path, d.inst)|;
    }
  }

  ghost function Drivers(t: Tree): seq<Driver> {
    Enumerate(AllDrivers(t))
  }

  lemma DriverOf(t: Tree, d: Driver) returns (k: nat)
    requires IsDriver(t, d)
    ensures k < |Drivers(t)| && Drivers(t)[k] == d
  {
    DriversAreAll(t, d);
    k :| 0 <= k < |Drivers(t)| && Drivers(t)[k] == d;
  }

  /** The signal a driver drives. */
  function Target(t: Tree, d: Driver): Node
    requires IsDriver(t, d)
  {
    match d
    case ByAssign(p, j) => Node(p, At(t, p).m.assignments[j].dst)
    case ByOutput(p, i, o) => Node(p, At(t, p).instances[i].outputs[o].parent)
    case ByInput(p, i, k) => Node(p + [i], At(t, p).instances[i].inputs[k].port)
  }

  ghost function DriverExpr(t: Tree, d: Driver): Expr
    requires IsDriver(t, d)
  {
    match d
    case ByAssign(p, j) => MovedExpr(t, p, At(t, p).m.assignments[j].expr)
    case ByOutput(p, i, o) => Ref(Moved(t, p + [i], At(t, p).instances[i].outputs[o].port))
    case ByInput(p, i, k) => Ref(Moved(t, p, At(t, p).instances[i].inputs[k].parent))
  }

  ghost function FlatAssign(t: Tree, d: Driver): Assignment {
    if IsDriver(t, d) then
      Assignment(Moved(t, Target(t, d).path, Target(t, d).signal), DriverExpr(t, d))
    else Assignment(Signal(FLAT, 0), LitU(0, 1))
  }

  // ---------------------------------------------------------- memory writes

  ghost function MovedWrite(t: Tree, p: Path, w: MemoryWrite): MemoryWrite {
    MemoryWrite(Moved(t, p, w.mem), Moved(t, p, w.clock), MovedExpr(t, p, w.enable),
                MovedExpr(t, p, w.addr), MovedExpr(t, p, w.data))
  }

  ghost function LevelWrites(t: Tree, p: Path, n: nat): (ws: seq<MemoryWrite>)
    requires n <= |ModuleAt(t, p).memoryWrites|
    ensures |ws| == n
    ensures forall j | 0 <= j < n :: ws[j] == MovedWrite(t, p, ModuleAt(t, p).memoryWrites[j])
  {
    if n == 0 then []
    else LevelWrites(t, p, n - 1) + [MovedWrite(t, p, ModuleAt(t, p).memoryWrites[n - 1])]
  }

  /** The writes of the first n levels, each level's in its own order. */
  ghost function WritesOf(t: Tree, ps: seq<Path>, n: nat): seq<MemoryWrite>
    requires n <= |ps|
  {
    if n == 0 then []
    else WritesOf(t, ps, n - 1) + LevelWrites(t, ps[n - 1], |ModuleAt(t, ps[n - 1]).memoryWrites|)
  }

  ghost function Levels(t: Tree): seq<Path> {
    Enumerate(AllPaths(t))
  }

  // ----------------------------------------------------------- flat module

  ghost function FlatModule(t: Tree): Module {
    Module(FLAT,
           seq(|Nodes(t)|, k requires 0 <= k < |Nodes(t)| =>
             if IsNode(t, Nodes(t)[k]) then MovedInfo(t, Nodes(t)[k]) else SignalInfo(UInt(1), Wire)),
           seq(|Drivers(t)|, k requires 0 <= k < |Drivers(t)| => FlatAssign(t, Drivers(t)[k])),
           WritesOf(t, Levels(t), |Levels(t)|),
           [], [])
  }

  ghost function FlatTree(t: Tree): Tree {
    Tree(FlatModule(t), [])
  }

  lemma FlatSignal(t: Tree, n: Node)
    requires IsNode(t, n)
    ensures
      var x := Moved(t, n.path, n.signal);
      && FlatModule(t).Owns(x) && FlatModule(t).signals[x.id] == MovedInfo(t, n)
      && FlatModule(t).WidthOf(x) == At(t, n.path).m.WidthOf(n.signal)
  {
    assert n == Node(n.path, n.signal);
  }

  lemma FlatOwned(t: Tree, x: Signal)
    requires FlatModule(t).Owns(x)
    ensures
      && x.id < |Nodes(t)| && IsNode(t, Nodes(t)[x.id])
      && Moved(t, Nodes(t)[x.id].path, Nodes(t)[x.id].signal) == x
  {
    NodeAt(t, x.id);
    var n := Nodes(t)[x.id];
    assert n == Node(n.path, n.signal);
  }

  /** Every flat assignment has a driver behind it. */
  lemma FlatAssignment(t: Tree, k: nat)
    requires k < |FlatModule(t).assignments|
    ensures k < |Drivers(t)| && IsDriver(t, Drivers(t)[k])
    ensures FlatModule(t).assignments[k] == FlatAssign(t, Drivers(t)[k])
  {
    DriversAreAll(t, Drivers(t)[k]);
  }

  lemma DriverAssigns(t: Tree, d: Driver)
    requires IsDriver(t, d)
    ensures FlatAssign(t, d) in FlatModule(t).assignments
  {
    var k := DriverOf(t, d);
    assert FlatModule(t).assignments[k] == FlatAssign(t, d);
  }

  // ------------------------------------------------------------ the picture

  function ValueOf(t: Tree, s: State, n: Node): Word
    requires Fits(t, s)
  {
    if ValidPath(t, n.path) then Get(StateAt(t, s, n.path).Values(), n.signal) else 0
  }

  function WordsIn(mems: Memories, mem: Signal): seq<Word> {
    if mem in mems then mems[mem] else []
  }

  function WordsOf(t: Tree, s: State, n: Node): seq<Word>
    requires Fits(t, s)
  {
    if ValidPath(t, n.path) then WordsIn(StateAt(t, s, n.path).store.mems, n.signal) else []
  }

  /** The hierarchical state as a state of the flattened design. */
  ghost function Image(t: Tree, s: State): (f: State)
    requires Fits(t, s)
    ensures Fits(FlatTree(t), f)
  {
    State(Store(map k: nat | k < |Nodes(t)| :: Signal(FLAT, k) := ValueOf(t, s, Nodes(t)[k]),
                map k: nat | k < |Nodes(t)| :: Signal(FLAT, k) := WordsOf(t, s, Nodes(t)[k])), [])
  }

  lemma ImageGet(t: Tree, s: State, p: Path, x: Signal)
    requires Fits(t, s) && ValidPath(t, p) && At(t, p).m.Owns(x)
    ensures
      && Moved(t, p, x) in Image(t, s).Values()
      && Get(Image(t, s).Values(), Moved(t, p, x)) == Get(StateAt(t, s, p).Values(), x)
      && Moved(t, p, x) in Image(t, s).store.mems
      && Image(t, s).store.mems[Moved(t, p, x)] == WordsIn(StateAt(t, s, p).store.mems, x)
  {
  }
}
