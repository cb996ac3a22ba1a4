/** Simulating a hierarchy is simulating its flattened design: started in
    corresponding states, the two stay in corresponding states through every
    `set` and every tick. */
module FlatSim {
  import opened Words
  import opened Rtl
  import opened Semantics
  import opened Simulation
  import opened Depends
  import opened Settling
  import opened Convergence
  import opened Bound
  import opened Fixpoint
  import opened Range
  import opened Runs
  import opened Flatten
  import opened FlatDesign
  import opened FlatEval
  import opened FlatSane
  import opened FlatWrites

  /** The flat state shows every signal and memory of the hierarchical one. */
  ghost predicate Tracks(t: Tree, s: State, f: State)
    requires Fits(t, s)
  {
    && Fits(FlatTree(t), f)
    && (forall x :: Get(f.Values(), x) == Get(Image(t, s).Values(), x))
    && f.store.mems == Image(t, s).store.mems
  }

  lemma ImageTracks(t: Tree, s: State)
    requires Fits(t, s)
    ensures Tracks(t, s, Image(t, s))
  {
  }

  lemma TracksMirrors(t: Tree, s: State, f: State, p: Path)
    requires Fits(t, s) && Tracks(t, s, f) && ValidPath(t, p)
    ensures Mirrors(t, p, At(t, p).m, f.store, StateAt(t, s, p).store)
  {
    forall x | At(t, p).m.Owns(x)
      ensures Get(f.Values(), Moved(t, p, x)) == Get(StateAt(t, s, p).Values(), x)
      ensures WordsIn(f.store.mems, Moved(t, p, x)) == WordsIn(StateAt(t, s, p).store.mems, x)
    {
      ImageGet(t, s, p, x);
    }
  }

  lemma {:induction false} ChildState(t: Tree, s: State, p: Path, i: nat)
    requires Fits(t, s) && ValidPath(t, p) && i < |At(t, p).instances|
    ensures ValidPath(t, p + [i]) && StateAt(t, s, p + [i]) == StateAt(t, s, p).kids[i]
    decreases |p|
  {
    ChildPath(t, p, i);
    if p == [] {
      assert p + [i] == [i] && [i][1..] == [];
    } else {
      ChildState(t.Child(p[0]), s.kids[p[0]], p[1..], i);
      assert (p + [i])[1..] == p[1..] + [i];
    }
  }

  // ---------------------------------------------------------- settled states

  /** The flat equation of a driver, given what it reads and where it writes. */
  lemma FlatEquation(t: Tree, s: State, n: Node, e: Expr, v: Word)
    requires Fits(t, s) && IsNode(t, n)
    requires Eval(FlatModule(t), Image(t, s).store, e) == v
    requires Get(StateAt(t, s, n.path).Values(), n.signal) == Masked(v, At(t, n.path).m.WidthOf(n.signal))
    ensures AssignOk(FlatModule(t), Image(t, s).store, Assignment(Moved(t, n.path, n.signal), e))
  {
    FlatSignal(t, n);
    ImageGet(t, s, n.path, n.signal);
  }

  lemma AssignImage(t: Tree, s: State, d: Driver)
    requires Flattenable(t) && Fits(t, s) && Settled(t, s) && IsDriver(t, d) && d.ByAssign?
    ensures AssignOk(FlatModule(t), Image(t, s).store, FlatAssign(t, d))
  {
    var p, u, v := d.path, At(t, d.path), StateAt(t, s, d.path);
    var a := u.m.assignments[d.index];
    LevelAt(t, p);
    SettledAt(t, s, p);
    AssignClosed(u, d.index);
    assert AssignOk(u.m, v.store, u.m.assignments[d.index]);
    ImageTracks(t, s);
    TracksMirrors(t, s, Image(t, s), p);
    FlatDeclares(t, p);
    EvalMoved(t, p, FlatModule(t), u.m, Image(t, s).store, v.store, a.expr);
    FlatEquation(t, s, Target(t, d), DriverExpr(t, d), Eval(u.m, v.store, a.expr));
  }

  lemma RefValue(m: Module, st: Store, x: Signal)
    ensures Eval(m, st, Ref(x)) == Get(st.values, x)
  {
  }

  /** A connection carries a value from one signal to another of the same width. */
  lemma WireImage(t: Tree, s: State, to: Node, from: Node)
    requires Fits(t, s) && IsNode(t, to) && IsNode(t, from)
    requires ValueOf(t, s, to) == Masked(ValueOf(t, s, from), At(t, to.path).m.WidthOf(to.signal))
    ensures AssignOk(FlatModule(t), Image(t, s).store,
                     Assignment(Moved(t, to.path, to.signal), Ref(Moved(t, from.path, from.signal))))
  {
    ImageGet(t, s, from.path, from.signal);
    RefValue(FlatModule(t), Image(t, s).store, Moved(t, from.path, from.signal));
    FlatEquation(t, s, to, Ref(Moved(t, from.path, from.signal)), ValueOf(t, s, from));
  }

  lemma OutputCarried(t: Tree, s: State, p: Path, i: nat, oc: Conn)
    requires Sane(t) && Pure(t) && AllClosed(t) && Fits(t, s) && Settled(t, s)
    requires ValidPath(t, p) && i < |At(t, p).instances| && oc in At(t, p).instances[i].outputs
    ensures IsNode(t, Node(p, oc.parent)) && IsNode(t, Node(p + [i], oc.port))
    ensures ValueOf(t, s, Node(p, oc.parent))
         == Masked(ValueOf(t, s, Node(p + [i], oc.port)), At(t, p).m.WidthOf(oc.parent))
  {
    ConnectionKinds(t, p, i);
    SettledAt(t, s, p);
    assert OutputOk(At(t, p).instances[i], StateAt(t, s, p).Values(), StateAt(t, s, p).kids[i], oc);
    ChildPath(t, p, i);
    ChildState(t, s, p, i);
  }

  lemma InputCarried(t: Tree, s: State, p: Path, i: nat, ic: Conn)
    requires Sane(t) && Pure(t) && AllClosed(t) && Fits(t, s) && Settled(t, s)
    requires ValidPath(t, p) && i < |At(t, p).instances| && ic in At(t, p).instances[i].inputs
    ensures IsNode(t, Node(p, ic.parent)) && IsNode(t, Node(p + [i], ic.port))
    ensures ValueOf(t, s, Node(p + [i], ic.port))
         == Masked(ValueOf(t, s, Node(p, ic.parent)), At(t, p + [i]).m.WidthOf(ic.port))
  {
    ConnectionKinds(t, p, i);
    SettledAt(t, s, p);
    assert InputOk(At(t, p).instances[i], StateAt(t, s, p).Values(), StateAt(t, s, p).kids[i], ic);
    ChildPath(t, p, i);
    ChildState(t, s, p, i);
  }

  lemma ConnImage(t: Tree, s: State, d: Driver)
    requires Flattenable(t) && Fits(t, s) && Settled(t, s) && IsDriver(t, d) && !d.ByAssign?
    ensures AssignOk(FlatModule(t), Image(t, s).store, FlatAssign(t, d))
  {
    var p, i := d.path, d.inst;
    if d.ByOutput? {
      var oc := At(t, p).instances[i].outputs[d.index];
      OutputCarried(t, s, p, i, oc);
      WireImage(t, s, Node(p, oc.parent), Node(p + [i], oc.port));
    } else {
      var ic := At(t, p).instances[i].inputs[d.index];
      InputCarried(t, s, p, i, ic);
      WireImage(t, s, Node(p + [i], ic.port), Node(p, ic.parent));
    }
  }

  lemma SyncResets(m: Module, values: Values)
    requires forall i | 0 <= i < |m.signals| :: !HasAsync(m.signals[i])
    ensures ResetsOk(m, values)
  {
    assert AsyncWrites(m, values) == map[];
  }

  lemma NoResets(t: Tree, values: Values)
    requires Sane(t) && Pure(t) && AllClosed(t)
    ensures ResetsOk(FlatModule(t), values)
  {
    FlatIsPure(t);
    SyncResets(FlatModule(t), values);
  }

  /** The picture of a settled hierarchy is a settled flat design. */
  lemma SettledImage(t: Tree, s: State)
    requires Flattenable(t) && Fits(t, s) && Settled(t, s)
    ensures Settled(FlatTree(t), Image(t, s))
  {
    NoResets(t, Image(t, s).Values());
    forall k | 0 <= k < |FlatModule(t).assignments|
      ensures AssignOk(FlatModule(t), Image(t, s).store, FlatModule(t).assignments[k])
    {
      FlatAssignment(t, k);
      var d := Drivers(t)[k];
      if d.ByAssign? {
        AssignImage(t, s, d);
      } else {
        ConnImage(t, s, d);
      }
    }
  }

  // ------------------------------------------------------------- stored values

  lemma {:induction false} StoredBelow(t: Tree, a: State, b: State, p: Path)
    requires Fits(t, a) && Fits(t, b) && ValidPath(t, p) && SameStored(t, a, b)
    ensures SameStored(At(t, p), StateAt(t, a, p), StateAt(t, b, p))
    decreases |p|
  {
    if p != [] {
      StoredBelow(t.Child(p[0]), a.kids[p[0]], b.kids[p[0]], p[1..]);
    }
  }

  /** What no flat driver drives, and is no input of the top, no driver of its own
      level drives either, and it is no port of a child. */
  lemma AssignedDriven(t: Tree, n: Node)
    requires IsNode(t, n) && Assigned(At(t, n.path).m, n.signal)
    ensures Driven(FlatTree(t), Moved(t, n.path, n.signal))
  {
    var m := At(t, n.path).m;
    var a :| a in m.assignments && a.dst == n.signal;
    var j :| 0 <= j < |m.assignments| && m.assignments[j] == a;
    DriverDrives(t, ByAssign(n.path, j));
  }

  lemma OutputIsDriven(t: Tree, n: Node)
    requires IsNode(t, n) && OutputDriven(At(t, n.path), n.signal)
    ensures Driven(FlatTree(t), Moved(t, n.path, n.signal))
  {
    var u := At(t, n.path);
    var i, oc :| 0 <= i < |u.instances| && oc in u.instances[i].outputs && oc.parent == n.signal;
    var o :| 0 <= o < |u.instances[i].outputs| && u.instances[i].outputs[o] == oc;
    DriverDrives(t, ByOutput(n.path, i, o));
  }

  lemma TopInput(t: Tree, n: Node)
    requires IsNode(t, n) && n.path == [] && IsInput(At(t, n.path).m, n.signal)
    ensures IsInput(FlatModule(t), Moved(t, n.path, n.signal))
  {
    FlatSignal(t, n);
  }

  lemma UndrivenBelow(t: Tree, n: Node)
    requires Sane(t) && Pure(t) && AllClosed(t) && IsNode(t, n)
    requires !Driven(FlatTree(t), Moved(t, n.path, n.signal))
    requires !IsInput(FlatModule(t), Moved(t, n.path, n.signal))
    ensures !Driven(At(t, n.path), n.signal) && !IsInput(At(t, n.path).m, n.signal)
  {
    if Assigned(At(t, n.path).m, n.signal) {
      AssignedDriven(t, n);
    } else if OutputDriven(At(t, n.path), n.signal) {
      OutputIsDriven(t, n);
    } else if IsInput(At(t, n.path).m, n.signal) {
      if n.path == [] {
        TopInput(t, n);
      } else {
        PortDriven(t, n);
      }
    }
  }

  /** The connection that drives an input port of an instance. */
  lemma PortConnection(t: Tree, q: Path, i: nat, x: Signal) returns (k: nat)
    requires Sane(t) && Pure(t) && AllClosed(t) && ValidPath(t, q) && i < |At(t, q).instances|
    requires IsInput(At(t, q).Child(i).m, x)
    ensures k < |At(t, q).instances[i].inputs| && At(t, q).instances[i].inputs[k].port == x
  {
    ConnectionKinds(t, q, i);
    var inst := At(t, q).instances[i];
    var ic := EveryInputConnected(At(t, q).m, inst, x);
    k :| 0 <= k < |inst.inputs| && inst.inputs[k] == ic;
  }

  lemma DriverDrives(t: Tree, d: Driver)
    requires IsDriver(t, d)
    ensures Driven(FlatTree(t), Moved(t, Target(t, d).path, Target(t, d).signal))
  {
    DriverAssigns(t, d);
    assert Assigned(FlatModule(t), FlatAssign(t, d).dst);
  }

  lemma PortDriven(t: Tree, n: Node)
    requires Sane(t) && Pure(t) && AllClosed(t) && IsNode(t, n) && n.path != []
    requires IsInput(At(t, n.path).m, n.signal)
    ensures Driven(FlatTree(t), Moved(t, n.path, n.signal))
  {
    var q, i := n.path[..|n.path| - 1], n.path[|n.path| - 1];
    assert q + [i] == n.path;
    PathPrefix(t, q, i);
    ChildPath(t, q, i);
    var k := PortConnection(t, q, i, n.signal);
    DriverDrives(t, ByInput(q, i, k));
  }

  lemma {:induction false} PathPrefix(t: Tree, q: Path, i: nat)
    requires ValidPath(t, q + [i])
    ensures ValidPath(t, q) && i < |At(t, q).instances|
    decreases |q|
  {
    if q != [] {
      assert (q + [i])[1..] == q[1..] + [i];
      PathPrefix(t.Child(q[0]), q[1..], i);
    }
  }

  /** Handles the flattened module does not have. */
  ghost predicate Foreign(t: Tree, x: Signal) {
    x.owner != FLAT || x.id >= |Nodes(t)|
  }

  lemma OwnNode(t: Tree, x: Signal)
    requires !Foreign(t, x)
    ensures IsNode(t, Nodes(t)[x.id])
    ensures Moved(t, Nodes(t)[x.id].path, Nodes(t)[x.id].signal) == x
  {
    FlatOwned(t, x);
  }

  lemma ForeignImage(t: Tree, s: State, x: Signal)
    requires Fits(t, s) && Foreign(t, x)
    ensures Get(Image(t, s).Values(), x) == 0
  {
  }

  /** An undriven signal keeps its value when a design settles. */
  lemma UndrivenKept(u: Tree, s: State, x: Signal)
    requires Fits(u, s) && Sane(u) && Pure(u) && (!Driven(u, x) || IsInput(u.m, x))
    ensures Get(Settle(u, s).Values(), x) == Get(s.Values(), x)
  {
    SettleStored(u, s);
  }

  lemma LevelKept(t: Tree, a: State, n: Node)
    requires Sane(t) && Pure(t) && Fits(t, a) && IsNode(t, n)
    requires (n.path == [] && IsInput(t.m, n.signal))
             || (!Driven(At(t, n.path), n.signal) && !IsInput(At(t, n.path).m, n.signal))
    ensures ValueOf(t, Settle(t, a), n) == ValueOf(t, a, n)
  {
    SettleStored(t, a);
    StoredBelow(t, a, Settle(t, a), n.path);
  }

  /** Settling the hierarchy keeps the values of what the flat design does not
      drive. */
  lemma FlatInput(t: Tree, n: Node)
    requires IsNode(t, n) && IsInput(FlatModule(t), Moved(t, n.path, n.signal))
    ensures n.path == [] && IsInput(t.m, n.signal)
  {
    FlatSignal(t, n);
  }

  lemma NodeKept(t: Tree, a: State, n: Node)
    requires Flattenable(t) && Fits(t, a) && IsNode(t, n)
    requires !Driven(FlatTree(t), Moved(t, n.path, n.signal))
    ensures ValueOf(t, Settle(t, a), n) == ValueOf(t, a, n)
  {
    if IsInput(FlatModule(t), Moved(t, n.path, n.signal)) {
      FlatInput(t, n);
    } else {
      UndrivenBelow(t, n);
    }
    LevelKept(t, a, n);
  }

  lemma SettledAlike(t: Tree, a: State, b: State, n: Node)
    requires Flattenable(t) && Fits(t, a) && Tracks(t, a, b) && IsNode(t, n)
    requires Sane(FlatTree(t)) && Pure(FlatTree(t))
    requires !Driven(FlatTree(t), Moved(t, n.path, n.signal))
    ensures Get(Image(t, Settle(t, a)).Values(), Moved(t, n.path, n.signal))
         == Get(Settle(FlatTree(t), b).Values(), Moved(t, n.path, n.signal))
  {
    UndrivenKept(FlatTree(t), b, Moved(t, n.path, n.signal));
    NodeKept(t, a, n);
    ImageGet(t, a, n.path, n.signal);
    ImageGet(t, Settle(t, a), n.path, n.signal);
  }

  lemma MemsKept(t: Tree, s: State, n: Node)
    requires Sane(t) && Pure(t) && Fits(t, s)
    ensures WordsOf(t, Settle(t, s), n) == WordsOf(t, s, n)
  {
    SettleStored(t, s);
    if ValidPath(t, n.path) {
      StoredBelow(t, s, Settle(t, s), n.path);
    }
  }

  lemma ImageWords(t: Tree, s: State, x: Signal)
    requires Fits(t, s)
    ensures x in Image(t, s).store.mems <==> !Foreign(t, x)
    ensures !Foreign(t, x) ==> Image(t, s).store.mems[x] == WordsOf(t, s, Nodes(t)[x.id])
  {
  }

  lemma SameMaps(u: Memories, v: Memories)
    requires forall x :: x in u <==> x in v
    requires forall x | x in u && x in v :: u[x] == v[x]
    ensures u == v
  {
  }

  lemma SameImageWords(t: Tree, a: State, b: State, x: Signal)
    requires Fits(t, a) && Fits(t, b)
    requires forall n :: WordsOf(t, a, n) == WordsOf(t, b, n)
    ensures x in Image(t, a).store.mems <==> x in Image(t, b).store.mems
    ensures x in Image(t, a).store.mems && x in Image(t, b).store.mems ==>
              Image(t, a).store.mems[x] == Image(t, b).store.mems[x]
  {
    ImageWords(t, a, x);
    ImageWords(t, b, x);
  }

  lemma SameImageMems(t: Tree, a: State, b: State)
    requires Fits(t, a) && Fits(t, b)
    requires forall n :: WordsOf(t, a, n) == WordsOf(t, b, n)
    ensures Image(t, a).store.mems == Image(t, b).store.mems
  {
    var u, v := Image(t, a).store.mems, Image(t, b).store.mems;
    forall x
      ensures x in u <==> x in v
      ensures x in u && x in v ==> u[x] == v[x]
    {
      SameImageWords(t, a, b, x);
    }
    SameMaps(u, v);
  }

  lemma ImageMems(t: Tree, s: State)
    requires Sane(t) && Pure(t) && Fits(t, s)
    ensures Image(t, Settle(t, s)).store.mems == Image(t, s).store.mems
  {
    forall n
      ensures WordsOf(t, Settle(t, s), n) == WordsOf(t, s, n)
    {
      MemsKept(t, s, n);
    }
    SameImageMems(t, Settle(t, s), s);
  }

  lemma UndrivenAlike(t: Tree, a: State, b: State, x: Signal)
    requires Flattenable(t) && Fits(t, a) && Tracks(t, a, b)
    requires Sane(FlatTree(t)) && Pure(FlatTree(t)) && !Driven(FlatTree(t), x)
    ensures Get(Image(t, Settle(t, a)).Values(), x) == Get(Settle(FlatTree(t), b).Values(), x)
  {
    if Foreign(t, x) {
      UndrivenKept(FlatTree(t), b, x);
      ForeignImage(t, a, x);
      ForeignImage(t, Settle(t, a), x);
    } else {
      OwnNode(t, x);
      SettledAlike(t, a, b, Nodes(t)[x.id]);
    }
  }

  lemma InputUndriven(u: Tree, x: Signal)
    requires Sane(u) && IsInput(u.m, x)
    ensures !Driven(u, x)
  {
    if Driven(u, x) {
      DrivenIsDrivable(u, x);
    }
  }

  lemma StoredAlike(u: Tree, a: State, b: State)
    requires u.instances == [] && Fits(u, a) && Fits(u, b) && Sane(u)
    requires forall x | !Driven(u, x) :: Get(a.Values(), x) == Get(b.Values(), x)
    requires a.store.mems == b.store.mems
    ensures SameStored(u, a, b) && SameInputs(u, a, b)
  {
    forall x | IsInput(u.m, x)
      ensures Get(a.Values(), x) == Get(b.Values(), x)
    {
      InputUndriven(u, x);
    }
  }

  /** The two settled designs agree everywhere. */
  lemma SettledSame(u: Tree, a: State, b: State)
    requires u.instances == [] && Fits(u, a) && Fits(u, b) && Sane(u) && Pure(u) && Levelled(u)
    requires Settled(u, a) && Settled(u, b)
    requires forall x | !Driven(u, x) :: Get(a.Values(), x) == Get(b.Values(), x)
    requires a.store.mems == b.store.mems
    ensures forall x :: Get(a.Values(), x) == Get(b.Values(), x)
  {
    StoredAlike(u, a, b);
    PureUnheld(u);
    SettledUnique(u, a, b);
    forall x
      ensures Get(a.Values(), x) == Get(b.Values(), x)
    {
      if Driven(u, x) {
        DrivenIsDrivable(u, x);
      }
    }
  }

  /** Settling corresponding states gives corresponding states. */
  lemma SettleTracks(t: Tree, a: State, b: State)
    requires Flattenable(t) && Fits(t, a) && Tracks(t, a, b)
    ensures Tracks(t, Settle(t, a), Settle(FlatTree(t), b))
    ensures Settled(t, Settle(t, a)) && Settled(FlatTree(t), Settle(FlatTree(t), b))
  {
    BothSettle(t, a, b);
    ImageMems(t, a);
    forall x | !Driven(FlatTree(t), x)
      ensures Get(Image(t, Settle(t, a)).Values(), x) == Get(Settle(FlatTree(t), b).Values(), x)
    {
      UndrivenAlike(t, a, b, x);
    }
    SettledSame(FlatTree(t), Image(t, Settle(t, a)), Settle(FlatTree(t), b));
  }

  lemma BothSettle(t: Tree, a: State, b: State)
    requires Flattenable(t) && Fits(t, a) && Fits(FlatTree(t), b)
    ensures Sane(FlatTree(t)) && Pure(FlatTree(t)) && Levelled(FlatTree(t))
    ensures Settled(t, Settle(t, a)) && Settled(FlatTree(t), Image(t, Settle(t, a)))
    ensures Settled(FlatTree(t), Settle(FlatTree(t), b))
  {
    PureSettleable(t);
    SettleSettles(t, a);
    SettledImage(t, Settle(t, a));
    FlatIsSane(t);
    FlatIsPure(t);
    FlatIsLevelled(t);
    PureSettleable(FlatTree(t));
    SettleSettles(FlatTree(t), b);
  }

  // --------------------------------------------------------------- clock edges

  lemma ResetMoved(t: Tree, p: Path, m: Module, flat: Store, local: Store, r: Reset)
    requires Mirrors(t, p, m, flat, local) && m.Owns(r.signal)
    ensures Asserted(flat.values, r.(signal := Moved(t, p, r.signal))) <==> Asserted(local.values, r)
  {
  }

  /** What two registers of two modules need to take the same next value. */
  lemma NextSame(f: Module, m: Module, flat: Store, local: Store, k: nat, i: nat)
    requires k < |f.signals| && i < |m.signals| && f.signals[k].kind.Reg? && m.signals[i].kind.Reg?
    requires f.signals[k].ty == m.signals[i].ty
    requires
      var a, b := f.signals[k].kind, m.signals[i].kind;
      && (a.reset.Some? <==> b.reset.Some?)
      && (b.reset.Some? ==>
            && a.reset.value.value == b.reset.value.value
            && (Asserted(flat.values, a.reset.value) <==> Asserted(local.values, b.reset.value)))
      && (a.next.Some? <==> b.next.Some?)
      && (b.next.Some? ==> Eval(f, flat, a.next.value) == Eval(m, local, b.next.value))
    ensures NextValue(f, flat, k) == NextValue(m, local, i)
  {
  }

  lemma NextMoved(t: Tree, n: Node, flat: Store, local: Store)
    requires IsNode(t, n) && Mirrors(t, n.path, At(t, n.path).m, flat, local)
    requires At(t, n.path).m.signals[n.signal.id].kind.Reg?
    requires RegClosed(At(t, n.path).m, At(t, n.path).m.signals[n.signal.id])
    requires Index(t, n) < |FlatModule(t).signals|
    requires FlatModule(t).signals[Index(t, n)] == MovedInfo(t, n)
    ensures NextValue(FlatModule(t), flat, Index(t, n))
         == NextValue(At(t, n.path).m, local, n.signal.id)
  {
    var p, m := n.path, At(t, n.path).m;
    var kind := m.signals[n.signal.id].kind;
    FlatDeclares(t, p);
    if kind.reset.Some? {
      ResetMoved(t, p, m, flat, local, kind.reset.value);
    }
    if kind.next.Some? {
      EvalMoved(t, p, FlatModule(t), m, flat, local, kind.next.value);
    }
    NextSame(FlatModule(t), m, flat, local, Index(t, n), n.signal.id);
  }

  lemma RegsClosed(u: Tree, k: nat)
    requires AllClosed(u) && k < |u.m.signals| && u.m.signals[k].kind.Reg?
    ensures RegClosed(u.m, u.m.signals[k])
  {
  }

  lemma LatchGet(m: Module, st: Store, x: Signal)
    requires m.Owns(x)
    ensures Get(LatchStore(m, st, AllClocks).values, x)
         == if m.signals[x.id].kind.Reg? then NextValue(m, st, x.id) else Get(st.values, x)
  {
    assert m.Handle(x.id) == x;
  }

  /** What a signal and its renamed copy need to latch alike. */
  lemma LatchAlike(f: Module, m: Module, flat: Store, local: Store, x: Signal, y: Signal)
    requires f.Owns(x) && m.Owns(y)
    requires f.signals[x.id].kind.Reg? <==> m.signals[y.id].kind.Reg?
    requires m.signals[y.id].kind.Reg? ==> NextValue(f, flat, x.id) == NextValue(m, local, y.id)
    requires Get(flat.values, x) == Get(local.values, y)
    ensures Get(LatchStore(f, flat, AllClocks).values, x) == Get(LatchStore(m, local, AllClocks).values, y)
  {
    LatchGet(f, flat, x);
    LatchGet(m, local, y);
  }

  /** Every flat signal latches what its original latches. */
  lemma LatchMoved(t: Tree, n: Node, flat: Store, local: Store)
    requires Sane(t) && Pure(t) && AllClosed(t) && IsNode(t, n)
    requires Mirrors(t, n.path, At(t, n.path).m, flat, local)
    ensures Get(LatchStore(FlatModule(t), flat, AllClocks).values, Moved(t, n.path, n.signal))
         == Get(LatchStore(At(t, n.path).m, local, AllClocks).values, n.signal)
  {
    var f, m, x := FlatModule(t), At(t, n.path).m, Moved(t, n.path, n.signal);
    FlatSignal(t, n);
    KindMoved(t, n);
    if m.signals[n.signal.id].kind.Reg? {
      NextAlike(t, n, flat, local);
    }
    LatchAlike(f, m, flat, local, x, n.signal);
  }

  lemma KindMoved(t: Tree, n: Node)
    requires IsNode(t, n)
    ensures MovedInfo(t, n).kind.Reg? <==> At(t, n.path).m.signals[n.signal.id].kind.Reg?
  {
  }

  lemma NextAlike(t: Tree, n: Node, flat: Store, local: Store)
    requires Sane(t) && Pure(t) && AllClosed(t) && IsNode(t, n)
    requires Mirrors(t, n.path, At(t, n.path).m, flat, local)
    requires At(t, n.path).m.signals[n.signal.id].kind.Reg?
    ensures FlatModule(t).Owns(Moved(t, n.path, n.signal))
    ensures FlatModule(t).signals[Index(t, n)].kind.Reg?
    ensures NextValue(FlatModule(t), flat, Index(t, n))
         == NextValue(At(t, n.path).m, local, n.signal.id)
  {
    FlatSignal(t, n);
    assert n == Node(n.path, n.signal);
    LevelAt(t, n.path);
    RegsClosed(At(t, n.path), n.signal.id);
    NextMoved(t, n, flat, local);
  }

  /** The flat state shows one signal and memory. */
  ghost predicate NodeTracks(t: Tree, s: State, f: State, n: Node)
    requires Fits(t, s)
  {
    && Get(f.Values(), Moved(t, n.path, n.signal)) == ValueOf(t, s, n)
    && WordsIn(f.store.mems, Moved(t, n.path, n.signal)) == WordsOf(t, s, n)
  }

  lemma NodeShown(t: Tree, s: State, f: State, x: Signal)
    requires Fits(t, s) && !Foreign(t, x) && NodeTracks(t, s, f, Nodes(t)[x.id])
    ensures Get(f.Values(), x) == Get(Image(t, s).Values(), x)
    ensures x in Image(t, s).store.mems && WordsIn(f.store.mems, x) == Image(t, s).store.mems[x]
  {
    OwnNode(t, x);
    ImageWords(t, s, x);
  }

  lemma ValueShown(t: Tree, s: State, f: State, x: Signal)
    requires Fits(t, s)
    requires forall n | IsNode(t, n) :: NodeTracks(t, s, f, n)
    requires forall y | Foreign(t, y) :: Get(f.Values(), y) == 0
    ensures Get(f.Values(), x) == Get(Image(t, s).Values(), x)
  {
    if Foreign(t, x) {
      ForeignImage(t, s, x);
    } else {
      OwnNode(t, x);
      NodeShown(t, s, f, x);
    }
  }

  lemma WordsShown(t: Tree, s: State, f: State, x: Signal)
    requires Fits(t, s) && x in Image(t, s).store.mems && x in f.store.mems
    requires forall n | IsNode(t, n) :: NodeTracks(t, s, f, n)
    ensures f.store.mems[x] == Image(t, s).store.mems[x]
  {
    ImageWords(t, s, x);
    OwnNode(t, x);
    NodeShown(t, s, f, x);
  }

  lemma TracksByNode(t: Tree, s: State, f: State)
    requires Fits(t, s) && f.kids == []
    requires forall n | IsNode(t, n) :: NodeTracks(t, s, f, n)
    requires forall x | Foreign(t, x) :: Get(f.Values(), x) == 0
    requires f.store.mems.Keys == Image(t, s).store.mems.Keys
    ensures Tracks(t, s, f)
  {
    var u, v := f.store.mems, Image(t, s).store.mems;
    forall x
      ensures Get(f.Values(), x) == Get(Image(t, s).Values(), x)
    {
      ValueShown(t, s, f, x);
    }
    forall x
      ensures x in u <==> x in v
      ensures x in u && x in v ==> u[x] == v[x]
    {
      assert x in u.Keys <==> x in v.Keys;
      if x in u && x in v {
        WordsShown(t, s, f, x);
      }
    }
    SameMaps(u, v);
  }

  lemma EdgeNode(t: Tree, s: State, f: State, n: Node)
    requires Sane(t) && Pure(t) && AllClosed(t) && Fits(t, s) && Tracks(t, s, f) && IsNode(t, n)
    ensures NodeTracks(t, Advance(t, s, AllClocks),
                       State(LatchStore(FlatModule(t), f.store, AllClocks), []), n)
  {
    TracksMirrors(t, s, f, n.path);
    AdvanceAt(t, s, AllClocks, n.path);
    LatchMoved(t, n, f.store, StateAt(t, s, n.path).store);
    MemoryMoved(t, n, f.store, StateAt(t, s, n.path).store);
  }

  lemma LatchForeign(t: Tree, f: State, x: Signal)
    requires Foreign(t, x)
    ensures Get(LatchStore(FlatModule(t), f.store, AllClocks).values, x) == Get(f.Values(), x)
  {
  }

  lemma ImageKeys(t: Tree, a: State, b: State)
    requires Fits(t, a) && Fits(t, b)
    ensures Image(t, a).store.mems.Keys == Image(t, b).store.mems.Keys
  {
  }

  /** One tick's edge on corresponding states. */
  lemma EdgeTracks(t: Tree, s: State, f: State)
    requires Flattenable(t) && Fits(t, s) && Tracks(t, s, f)
    ensures Tracks(t, Advance(t, s, AllClocks), State(LatchStore(FlatModule(t), f.store, AllClocks), []))
  {
    var s', f' := Advance(t, s, AllClocks), State(LatchStore(FlatModule(t), f.store, AllClocks), []);
    forall n | IsNode(t, n)
      ensures NodeTracks(t, s', f', n)
    {
      EdgeNode(t, s, f, n);
    }
    forall x | Foreign(t, x)
      ensures Get(f'.Values(), x) == 0
    {
      LatchForeign(t, f, x);
      ForeignImage(t, s, x);
    }
    WritesKeys(FlatModule(t), f.store, |FlatModule(t).memoryWrites|);
    ImageKeys(t, s, s');
    TracksByNode(t, s', f');
  }

  // -------------------------------------------------------------------- runs

  /** A call on the hierarchy as a call on the flattened design. */
  ghost function MovedEvent(t: Tree, e: Event): Event {
    match e
    case SetTo(x, value) => SetTo(Moved(t, [], x), value)
    case Edge(edges) => Edge(AllClocks)
  }

  ghost function MovedEvents(t: Tree, events: seq<Event>): (moved: seq<Event>)
    ensures |moved| == |events|
    decreases |events|
  {
    if events == [] then []
    else MovedEvents(t, events[..|events| - 1]) + [MovedEvent(t, events[|events| - 1])]
  }

  predicate EveryClock(events: seq<Event>) {
    forall i | 0 <= i < |events| && events[i].Edge? :: events[i].edges.AllClocks?
  }

  lemma SetNode(t: Tree, s: State, f: State, x: Signal, w: Word, k: Node)
    requires Fits(t, s) && Tracks(t, s, f) && IsInput(t.m, x) && IsNode(t, k)
    ensures NodeTracks(t, s.WithValues(s.Values()[x := w]),
                       f.WithValues(f.Values()[Moved(t, [], x) := w]), k)
  {
    ImageGet(t, s, k.path, k.signal);
    if Moved(t, k.path, k.signal) == Moved(t, [], x) {
      MovedInjective(t, k, Node([], x));
    } else {
      assert k.path != [] || k.signal != x;
    }
  }

  /** Writing corresponding inputs. */
  lemma WriteTracks(t: Tree, s: State, f: State, x: Signal, w: Word)
    requires Fits(t, s) && Tracks(t, s, f) && IsInput(t.m, x)
    ensures Tracks(t, s.WithValues(s.Values()[x := w]), f.WithValues(f.Values()[Moved(t, [], x) := w]))
  {
    var s', f' := s.WithValues(s.Values()[x := w]), f.WithValues(f.Values()[Moved(t, [], x) := w]);
    forall k | IsNode(t, k)
      ensures NodeTracks(t, s', f', k)
    {
      SetNode(t, s, f, x, w, k);
    }
    assert IsNode(t, Node([], x));
    forall y | Foreign(t, y)
      ensures Get(f'.Values(), y) == 0
    {
      ForeignImage(t, s, y);
    }
    ImageKeys(t, s, s');
    TracksByNode(t, s', f');
  }

  lemma SetTracks(t: Tree, s: State, f: State, x: Signal, value: Word)
    requires Flattenable(t) && Fits(t, s) && Tracks(t, s, f) && IsInput(t.m, x)
    ensures Tracks(t, SetSignal(t, s, x, value), SetSignal(FlatTree(t), f, Moved(t, [], x), value))
    ensures Settled(t, SetSignal(t, s, x, value))
    ensures Settled(FlatTree(t), SetSignal(FlatTree(t), f, Moved(t, [], x), value))
  {
    var w := Masked(value, t.m.WidthOf(x));
    FlatSignal(t, Node([], x));
    WriteTracks(t, s, f, x, w);
    SettleTracks(t, s.WithValues(s.Values()[x := w]), f.WithValues(f.Values()[Moved(t, [], x) := w]));
  }

  lemma FlatAdvance(t: Tree, f: State)
    requires Fits(FlatTree(t), f)
    ensures Advance(FlatTree(t), f, AllClocks) == State(LatchStore(FlatModule(t), f.store, AllClocks), [])
  {
  }

  lemma TickTracks(t: Tree, s: State, f: State)
    requires Flattenable(t) && Fits(t, s) && Tracks(t, s, f)
    requires Settled(t, s) && Settled(FlatTree(t), f)
    ensures Tracks(t, Tick(t, s, AllClocks), Tick(FlatTree(t), f, AllClocks))
    ensures Settled(t, Tick(t, s, AllClocks)) && Settled(FlatTree(t), Tick(FlatTree(t), f, AllClocks))
  {
    TickOfSettled(t, s, AllClocks);
    TickOfSettled(FlatTree(t), f, AllClocks);
    FlatAdvance(t, f);
    EdgeTracks(t, s, f);
    SettleTracks(t, Advance(t, s, AllClocks), Advance(FlatTree(t), f, AllClocks));
  }

  /** Both states are settled and correspond. */
  ghost predicate InStep(t: Tree, s: State, f: State)
    requires Fits(t, s)
  {
    Tracks(t, s, f) && Settled(t, s) && Settled(FlatTree(t), f)
  }

  lemma CallInStep(t: Tree, s: State, f: State, e: Event)
    requires Flattenable(t) && Fits(t, s) && InStep(t, s, f)
    requires e.SetTo? ==> IsInput(t.m, e.signal)
    requires e.Edge? ==> e.edges.AllClocks?
    ensures InStep(t, Apply(t, s, e), Apply(FlatTree(t), f, MovedEvent(t, e)))
  {
    match e
    case SetTo(x, value) => SetTracks(t, s, f, x, value);
    case Edge(_) => TickTracks(t, s, f);
  }

  lemma RunOf(t: Tree, s: State, events: seq<Event>)
    requires Fits(t, s)
    ensures events == [] ==> Run(t, s, events) == s
    ensures events != [] ==>
              Run(t, s, events) == Apply(t, Run(t, s, events[..|events| - 1]), events[|events| - 1])
  {
  }

  lemma MovedLast(t: Tree, events: seq<Event>)
    requires events != []
    ensures
      var moved, n := MovedEvents(t, events), |events| - 1;
      moved[..n] == MovedEvents(t, events[..n]) && moved[n] == MovedEvent(t, events[n])
  {
  }

  /** The runs from s and from its picture end in step. */
  ghost predicate RunsAlike(t: Tree, s: State, events: seq<Event>)
    requires Fits(t, s)
  {
    InStep(t, Run(t, s, events), Run(FlatTree(t), Image(t, s), MovedEvents(t, events)))
  }

  lemma NoCalls(t: Tree, s: State)
    requires Flattenable(t) && Fits(t, s) && Settled(t, s)
    ensures RunsAlike(t, s, [])
  {
    RunOf(t, s, []);
    RunOf(FlatTree(t), Image(t, s), []);
    ImageTracks(t, s);
    SettledImage(t, s);
  }

  lemma OneMoreCall(t: Tree, s: State, events: seq<Event>)
    requires Flattenable(t) && Fits(t, s) && events != []
    requires var e := events[|events| - 1];
             (e.SetTo? ==> IsInput(t.m, e.signal)) && (e.Edge? ==> e.edges.AllClocks?)
    requires RunsAlike(t, s, events[..|events| - 1])
    ensures RunsAlike(t, s, events)
  {
    var f, n := Image(t, s), |events| - 1;
    RunOf(t, s, events);
    RunOf(FlatTree(t), f, MovedEvents(t, events));
    MovedLast(t, events);
    CallInStep(t, Run(t, s, events[..n]), Run(FlatTree(t), f, MovedEvents(t, events[..n])), events[n]);
  }

  /** From any settled state on, through any calls, the hierarchical simulator and
      the simulator of the flattened design stay in step: every signal and every
      memory of every instance agrees. */
  lemma {:induction false} RunsInStep(t: Tree, s: State, events: seq<Event>)
    requires Flattenable(t) && Fits(t, s) && Settled(t, s)
    requires External(t, events) && EveryClock(events)
    ensures RunsAlike(t, s, events)
    decreases |events|
  {
    if events == [] {
      NoCalls(t, s);
    } else {
      RunsInStep(t, s, events[..|events| - 1]);
      OneMoreCall(t, s, events);
    }
  }
}
