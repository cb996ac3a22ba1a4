/** Renaming does not change what an expression computes. */
module FlatEval {
  import opened Words
  import opened Rtl
  import opened Semantics
  import opened Simulation
  import opened Depends
  import opened Runs
  import opened Flatten
  import opened FlatDesign

  /** The expression mentions only signals of its own module. */
  predicate Closed(m: Module, e: Expr) {
    && (forall x | x in ExprDeps(e) :: m.Owns(x))
    && (forall y | y in ExprMems(e) :: m.Owns(y))
  }

  predicate ClosedParts(m: Module, parts: seq<Expr>) {
    && (forall x | x in PartsDeps(parts) :: m.Owns(x))
    && (forall y | y in PartsMems(parts) :: m.Owns(y))
  }

  /** Module `f` declares the renamed signals of `m`. */
  ghost predicate Declares(t: Tree, p: Path, f: Module, m: Module) {
    forall x | m.Owns(x) ::
      && SignalType(f, Moved(t, p, x)) == SignalType(m, x)
      && (IsMem(f, Moved(t, p, x)) <==> IsMem(m, x))
  }

  lemma InfoMoved(t: Tree, n: Node)
    requires IsNode(t, n)
    ensures MovedInfo(t, n).ty == At(t, n.path).m.signals[n.signal.id].ty
    ensures MovedInfo(t, n).kind.Mem? <==> At(t, n.path).m.signals[n.signal.id].kind.Mem?
  {
  }

  lemma DeclaresOne(t: Tree, p: Path, x: Signal)
    requires ValidPath(t, p) && At(t, p).m.Owns(x)
    ensures SignalType(FlatModule(t), Moved(t, p, x)) == SignalType(At(t, p).m, x)
    ensures IsMem(FlatModule(t), Moved(t, p, x)) <==> IsMem(At(t, p).m, x)
  {
    FlatSignal(t, Node(p, x));
    InfoMoved(t, Node(p, x));
  }

  lemma FlatDeclares(t: Tree, p: Path)
    requires ValidPath(t, p)
    ensures Declares(t, p, FlatModule(t), At(t, p).m)
  {
    forall x | At(t, p).m.Owns(x)
      ensures SignalType(FlatModule(t), Moved(t, p, x)) == SignalType(At(t, p).m, x)
      ensures IsMem(FlatModule(t), Moved(t, p, x)) <==> IsMem(At(t, p).m, x)
    {
      DeclaresOne(t, p, x);
    }
  }

  lemma {:induction false} TypeMoved(t: Tree, p: Path, f: Module, m: Module, e: Expr)
    requires Declares(t, p, f, m) && Closed(m, e)
    ensures TypeOf(f, MovedExpr(t, p, e)) == TypeOf(m, e)
    decreases e
  {
    if e.Ref? {
      assert m.Owns(e.signal);
    } else if e.Bits? || e.Arith? {
      TypeMoved(t, p, f, m, e.lhs);
      TypeMoved(t, p, f, m, e.rhs);
    } else if e.Mux? {
      TypeMoved(t, p, f, m, e.thenExpr);
      TypeMoved(t, p, f, m, e.elseExpr);
    } else if e.Not? || e.Trunc? || e.Cast? {
      TypeMoved(t, p, f, m, e.inner);
    } else if e.Concat? {
      PartsWidthMoved(t, p, f, m, e.parts);
    } else if e.MemRead? {
      assert m.Owns(e.mem);
    }
  }

  lemma {:induction false} PartsWidthMoved(t: Tree, p: Path, f: Module, m: Module, parts: seq<Expr>)
    requires Declares(t, p, f, m) && ClosedParts(m, parts)
    ensures PartsWidth(f, MovedParts(t, p, parts)) == PartsWidth(m, parts)
    decreases parts
  {
    if parts != [] {
      TypeMoved(t, p, f, m, parts[0]);
      PartsWidthMoved(t, p, f, m, parts[1..]);
    }
  }

  /** A flat store that shows the module at path p what it sees in its own. */
  ghost predicate Mirrors(t: Tree, p: Path, m: Module, flat: Store, local: Store) {
    forall x | m.Owns(x) ::
      && Get(flat.values, Moved(t, p, x)) == Get(local.values, x)
      && WordsIn(flat.mems, Moved(t, p, x)) == WordsIn(local.mems, x)
  }

  lemma ReadMirrored(t: Tree, p: Path, m: Module, flat: Store, local: Store, mem: Signal, addr: Word)
    requires Mirrors(t, p, m, flat, local) && m.Owns(mem)
    ensures ReadMem(flat.mems, Moved(t, p, mem), addr) == ReadMem(local.mems, mem, addr)
  {
    assert WordsIn(flat.mems, Moved(t, p, mem)) == WordsIn(local.mems, mem);
  }

  lemma {:induction false} EvalMoved(t: Tree, p: Path, f: Module, m: Module, flat: Store, local: Store, e: Expr)
    requires Declares(t, p, f, m) && Mirrors(t, p, m, flat, local) && Closed(m, e)
    ensures Eval(f, flat, MovedExpr(t, p, e)) == Eval(m, local, e)
    decreases e
  {
    if e.Ref? {
      assert m.Owns(e.signal);
    } else if e.Bits? || e.Arith? {
      EvalMoved(t, p, f, m, flat, local, e.lhs);
      EvalMoved(t, p, f, m, flat, local, e.rhs);
    } else if e.Compare? {
      EvalMoved(t, p, f, m, flat, local, e.lhs);
      EvalMoved(t, p, f, m, flat, local, e.rhs);
      TypeMoved(t, p, f, m, e.lhs);
    } else if e.Mux? {
      EvalMoved(t, p, f, m, flat, local, e.cond);
      EvalMoved(t, p, f, m, flat, local, e.thenExpr);
      EvalMoved(t, p, f, m, flat, local, e.elseExpr);
    } else if e.Concat? {
      PartsMoved(t, p, f, m, flat, local, e.parts);
    } else if e.MemRead? {
      EvalMoved(t, p, f, m, flat, local, e.addr);
      assert e.mem in ExprMems(e);
      ReadMirrored(t, p, m, flat, local, e.mem, Eval(m, local, e.addr));
    } else if !e.Lit? {
      EvalMoved(t, p, f, m, flat, local, e.inner);
      TypeMoved(t, p, f, m, e.inner);
    }
  }

  /** One step of the concatenation loop in both modules. */
  lemma PartMoved(f: Module, m: Module, flat: Store, local: Store, moved: seq<Expr>, parts: seq<Expr>)
    requires parts != [] && moved != []
    requires Eval(f, flat, moved[0]) == Eval(m, local, parts[0])
    requires Width(f, moved[0]) == Width(m, parts[0])
    requires EvalParts(f, flat, moved[1..]) == EvalParts(m, local, parts[1..])
    ensures EvalParts(f, flat, moved) == EvalParts(m, local, parts)
  {
    PartsUnfold(f, flat, moved);
    PartsUnfold(m, local, parts);
  }

  lemma PartsUnfold(m: Module, st: Store, parts: seq<Expr>)
    requires parts != []
    ensures
      var (value, shift) := EvalParts(m, st, parts[1..]);
      EvalParts(m, st, parts)
      == (BitsWord(OrOp, value, ShiftLeft(Eval(m, st, parts[0]), shift)), shift + Width(m, parts[0]))
  {
  }

  lemma {:induction false} PartsMoved(t: Tree, p: Path, f: Module, m: Module, flat: Store, local: Store,
                                      parts: seq<Expr>)
    requires Declares(t, p, f, m) && Mirrors(t, p, m, flat, local) && ClosedParts(m, parts)
    ensures EvalParts(f, flat, MovedParts(t, p, parts)) == EvalParts(m, local, parts)
    decreases parts
  {
    if parts != [] {
      EvalMoved(t, p, f, m, flat, local, parts[0]);
      TypeMoved(t, p, f, m, parts[0]);
      PartsMoved(t, p, f, m, flat, local, parts[1..]);
      MovedParts1(t, p, parts);
      PartMoved(f, m, flat, local, MovedParts(t, p, parts), parts);
    }
  }

  lemma MovedParts1(t: Tree, p: Path, parts: seq<Expr>)
    requires parts != []
    ensures MovedParts(t, p, parts)[0] == MovedExpr(t, p, parts[0])
    ensures MovedParts(t, p, parts)[1..] == MovedParts(t, p, parts[1..])
  {
  }

  /** The dependencies are renamed along. */
  lemma {:induction false} DepsMoved(t: Tree, p: Path, e: Expr, y: Signal) returns (x: Signal)
    requires y in ExprDeps(MovedExpr(t, p, e))
    ensures x in ExprDeps(e) && y == Moved(t, p, x)
    decreases e
  {
    match e
    case Lit(_, _) =>
      x := y;
    case Ref(s) =>
      x := s;
    case Bits(_, l, r) =>
      if y in ExprDeps(MovedExpr(t, p, l)) {
        x := DepsMoved(t, p, l, y);
      } else {
        x := DepsMoved(t, p, r, y);
      }
    case Arith(_, l, r) =>
      if y in ExprDeps(MovedExpr(t, p, l)) {
        x := DepsMoved(t, p, l, y);
      } else {
        x := DepsMoved(t, p, r, y);
      }
    case Compare(_, l, r) =>
      if y in ExprDeps(MovedExpr(t, p, l)) {
        x := DepsMoved(t, p, l, y);
      } else {
        x := DepsMoved(t, p, r, y);
      }
    case Mux(c, a, b) =>
      if y in ExprDeps(MovedExpr(t, p, c)) {
        x := DepsMoved(t, p, c, y);
      } else if y in ExprDeps(MovedExpr(t, p, a)) {
        x := DepsMoved(t, p, a, y);
      } else {
        x := DepsMoved(t, p, b, y);
      }
    case Concat(parts) =>
      x := PartsDepsMoved(t, p, parts, y);
    case MemRead(_, addr) =>
      x := DepsMoved(t, p, addr, y);
    case Not(inner) => x := DepsMoved(t, p, inner, y);
    case Slice(inner, _, _) => x := DepsMoved(t, p, inner, y);
    case Zext(inner, _) => x := DepsMoved(t, p, inner, y);
    case Sext(inner, _) => x := DepsMoved(t, p, inner, y);
    case Trunc(inner, _) => x := DepsMoved(t, p, inner, y);
    case Cast(inner, _) => x := DepsMoved(t, p, inner, y);
  }

  lemma {:induction false} PartsDepsMoved(t: Tree, p: Path, parts: seq<Expr>, y: Signal) returns (x: Signal)
    requires y in PartsDeps(MovedParts(t, p, parts))
    ensures x in PartsDeps(parts) && y == Moved(t, p, x)
    decreases parts
  {
    if y in ExprDeps(MovedExpr(t, p, parts[0])) {
      x := DepsMoved(t, p, parts[0], y);
    } else {
      x := PartsDepsMoved(t, p, parts[1..], y);
    }
  }
}
