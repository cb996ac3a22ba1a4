/** The static checks of expressions and of a module's logic, which push
    diagnostics: none exactly when the check holds, and a type is withheld only
    after a diagnostic. */
module TypeCheck {
  import opened Rtl
  import opened Depends
  import FlatEval

  /** The diagnostics by their code. */
  datatype Code =
    | E_LIT_WIDTH_ZERO | E_LIT_VALUE_WIDTH | E_SIGNAL_SCOPE
    | E_EXPR_TYPE | E_SIGNED_MIX | E_MUX_COND_WIDTH
    | E_SLICE_WIDTH_ZERO | E_SLICE_RANGE
    | E_EXTEND_WIDTH_ZERO | E_EXTEND_WIDTH
    | E_TRUNC_WIDTH_ZERO | E_TRUNC_WIDTH
    | E_CONCAT_EMPTY | E_MEM_READ_TARGET | E_MEM_ADDR_WIDTH
    | E_ASSIGN_DST | E_ASSIGN_KIND | E_ASSIGN_TYPE | E_MULTI_DRIVER
    | E_MEM_WRITE_TARGET | E_CLOCK_WIDTH | E_MEM_ENABLE_WIDTH | E_MEM_DATA_WIDTH
    | E_REG_CLOCK_MISSING | E_RESET_WIDTH | E_RESET_VALUE_WIDTH
    | E_REG_NEXT_TYPE | E_REG_NEXT_MISSING
    | E_CHECK_NAME_EMPTY | E_CHECK_NAME_DUP | E_CHECK_CONDITION_TYPE | E_CHECK_ENABLE_TYPE
    | E_CHECK_CLOCK_WIDTH | E_SIGNAL_NAME_EMPTY | E_SIGNAL_NAME_DUP
    | E_INSTANCE_NAME_DUP | E_INSTANCE_TARGET | E_INSTANCE_PORT | E_INSTANCE_PORT_DUP
    | E_INSTANCE_TYPE | E_INSTANCE_OUTPUT_TARGET | E_INSTANCE_UNCONNECTED
    | E_MODULE_NAME_EMPTY | E_MODULE_NAME_DUP | E_HIERARCHY_CYCLE
    | E_COMPILE_INSTANCE_SIGNAL

  /** The vector of diagnostics the checks push into. */
  class Report {
    var codes: seq<Code>

    constructor ()
      ensures codes == []
    {
      codes := [];
    }

    method Push(code: Code)
      modifies this
      ensures codes == old(codes) + [code]
    {
      codes := codes + [code];
    }
  }

  /** Diagnostics are only added, and none exactly when the check holds. */
  twostate predicate Reports(d: Report, holds: bool)
    reads d
  {
    old(d.codes) <= d.codes && (d.codes == old(d.codes) <==> holds)
  }

  // ------------------------------------------------------------- expressions

  /** `signal_type` */
  method CheckSignal(m: Module, x: Signal, d: Report) returns (ty: Option<BitType>)
    modifies d
    ensures ty == SignalType(m, x) && Reports(d, m.Owns(x))
  {
    ty := SignalType(m, x);
    if ty.None? {
      d.Push(E_SIGNAL_SCOPE);
    }
  }

  /** The comparison at the end of `same_type` and `same_numeric_type`. */
  method SameType(a: Option<BitType>, b: Option<BitType>, numeric: bool, d: Report)
    returns (ty: Option<BitType>)
    modifies d
    ensures ty == Join(a, b)
    ensures Reports(d, a.None? || b.None? || ty.Some?)
  {
    if a.None? || b.None? {
      return None;
    }
    if a != b {
      d.Push(if numeric && a.value.width == b.value.width then E_SIGNED_MIX else E_EXPR_TYPE);
      return None;
    }
    ty := a;
  }

  /** A mismatch with an expected type is reported; a missing type has been. */
  method Expect(ty: Option<BitType>, expected: BitType, code: Code, d: Report)
    modifies d
    ensures Reports(d, ty.None? || ty.value == expected)
  {
    if ty.Some? && ty.value != expected {
      d.Push(code);
    }
  }

  predicate IsResize(e: Expr) {
    e.Slice? || e.Zext? || e.Sext? || e.Trunc?
  }

  /** `expr_type`: the type, and a diagnostic exactly when the expression is not
      well typed. */
  method ExprType(m: Module, e: Expr, d: Report) returns (ty: Option<BitType>)
    modifies d
    ensures ty == TypeOf(m, e) && Reports(d, WellTyped(m, e))
    decreases e, 1
  {
    match e
    case Lit(value, litTy) =>
      ty := CheckLiteral(value, litTy, d);
    case Ref(x) =>
      ty := CheckSignal(m, x, d);
    case Not(inner) =>
      ty := ExprType(m, inner, d);
    case Bits(_, l, r) =>
      var a := ExprType(m, l, d);
      var b := ExprType(m, r, d);
      ty := SameType(a, b, false, d);
    case Arith(_, l, r) =>
      var a := ExprType(m, l, d);
      var b := ExprType(m, r, d);
      ty := SameType(a, b, true, d);
    case Compare(_, l, r) =>
      var a := ExprType(m, l, d);
      var b := ExprType(m, r, d);
      var _ := SameType(a, b, true, d);
      ty := Some(UInt(1));
    case Mux(_, _, _) =>
      ty := MuxType(m, e, d);
    case Cast(inner, signedness) =>
      var a := ExprType(m, inner, d);
      ty := Recast(a, signedness);
    case Concat(parts) =>
      ty := ConcatType(m, e, d);
    case MemRead(_, _) =>
      ty := MemReadType(m, e, d);
    case _ =>
      ty := ResizeType(m, e, d);
  }

  method CheckLiteral(value: int, ty: BitType, d: Report) returns (r: Option<BitType>)
    modifies d
    ensures r == if ty.width == 0 then None else Some(ty)
    ensures Reports(d, ty.width > 0 && FitsType(value, ty))
  {
    if ty.width == 0 {
      d.Push(E_LIT_WIDTH_ZERO);
      return None;
    }
    if !FitsType(value, ty) {
      d.Push(E_LIT_VALUE_WIDTH);
    }
    r := Some(ty);
  }

  method MuxType(m: Module, e: Expr, d: Report) returns (ty: Option<BitType>)
    requires e.Mux?
    modifies d
    ensures ty == TypeOf(m, e) && Reports(d, WellTyped(m, e))
    decreases e, 0
  {
    var c := ExprType(m, e.cond, d);
    Expect(c, UInt(1), E_MUX_COND_WIDTH, d);
    var a := ExprType(m, e.thenExpr, d);
    var b := ExprType(m, e.elseExpr, d);
    ty := SameType(a, b, false, d);
  }

  function ZeroCode(e: Expr): Code
    requires IsResize(e)
  {
    match e
    case Slice(_, _, _) => E_SLICE_WIDTH_ZERO
    case Trunc(_, _) => E_TRUNC_WIDTH_ZERO
    case _ => E_EXTEND_WIDTH_ZERO
  }

  /** The target width fits the width of the operand. */
  predicate ResizeFits(e: Expr, inner: nat)
    requires IsResize(e)
  {
    match e
    case Slice(_, lsb, width) => lsb + width <= inner
    case Trunc(_, width) => width <= inner
    case Zext(_, width) => inner <= width
    case Sext(_, width) => inner <= width
  }

  method ResizeType(m: Module, e: Expr, d: Report) returns (ty: Option<BitType>)
    requires IsResize(e)
    modifies d
    ensures ty == TypeOf(m, e) && Reports(d, WellTyped(m, e))
    decreases e, 0
  {
    if e.width == 0 {
      d.Push(ZeroCode(e));
      return None;
    }
    var a := ExprType(m, e.inner, d);
    if a.Some? && !ResizeFits(e, a.value.width) {
      d.Push(if e.Slice? then E_SLICE_RANGE else if e.Trunc? then E_TRUNC_WIDTH else E_EXTEND_WIDTH);
    }
    ty := if e.Trunc? then Resize(a, e.width)
          else if e.Sext? then Some(SInt(e.width))
          else Some(UInt(e.width));
  }

  predicate PartsTyped(m: Module, parts: seq<Expr>, n: nat)
    requires n <= |parts|
  {
    forall j | 0 <= j < n :: WellTyped(m, parts[j])
  }

  lemma PartsMore(m: Module, parts: seq<Expr>, n: nat)
    requires n < |parts|
    ensures PartsTyped(m, parts, n + 1) <==> PartsTyped(m, parts, n) && WellTyped(m, parts[n])
    ensures PartsWidth(m, parts[n..]) == WidthOr0(TypeOf(m, parts[n])) + PartsWidth(m, parts[n + 1..])
  {
    assert parts[n..][0] == parts[n] && parts[n..][1..] == parts[n + 1..];
  }

  /** The total width of the parts. */
  method PartsType(m: Module, parts: seq<Expr>, d: Report) returns (total: nat)
    modifies d
    ensures total == PartsWidth(m, parts) && Reports(d, PartsTyped(m, parts, |parts|))
    decreases parts, 0
  {
    total := 0;
    var i := 0;
    assert parts[0..] == parts;
    while i < |parts|
      invariant i <= |parts| && total + PartsWidth(m, parts[i..]) == PartsWidth(m, parts)
      invariant Reports(d, PartsTyped(m, parts, i))
    {
      PartsMore(m, parts, i);
      var a := ExprType(m, parts[i], d);
      total := total + WidthOr0(a);
      i := i + 1;
    }
  }

  method ConcatType(m: Module, e: Expr, d: Report) returns (ty: Option<BitType>)
    requires e.Concat?
    modifies d
    ensures ty == TypeOf(m, e) && Reports(d, WellTyped(m, e))
    decreases e, 0
  {
    if e.parts == [] {
      d.Push(E_CONCAT_EMPTY);
      return None;
    }
    var total := PartsType(m, e.parts, d);
    ty := Some(UInt(total));
  }

  method MemReadType(m: Module, e: Expr, d: Report) returns (ty: Option<BitType>)
    requires e.MemRead?
    modifies d
    ensures ty == TypeOf(m, e) && Reports(d, WellTyped(m, e))
    decreases e, 0
  {
    if !IsMem(m, e.mem) {
      d.Push(E_MEM_READ_TARGET);
      return None;
    }
    var a := ExprType(m, e.addr, d);
    Expect(a, UInt(m.signals[e.mem.id].kind.addrWidth), E_MEM_ADDR_WIDTH, d);
    ty := SignalType(m, e.mem);
  }

  /** A well-typed expression mentions only signals of its own module. */
  lemma {:induction false} WellTypedCloses(m: Module, e: Expr)
    requires WellTyped(m, e)
    ensures FlatEval.Closed(m, e)
    decreases e
  {
    match e
    case Lit(_, _) =>
    case Ref(_) =>
    case Bits(_, l, r) => WellTypedCloses(m, l); WellTypedCloses(m, r);
    case Arith(_, l, r) => WellTypedCloses(m, l); WellTypedCloses(m, r);
    case Compare(_, l, r) => WellTypedCloses(m, l); WellTypedCloses(m, r);
    case Mux(c, a, b) => WellTypedCloses(m, c); WellTypedCloses(m, a); WellTypedCloses(m, b);
    case Concat(parts) => PartsClose(m, parts);
    case MemRead(_, addr) => WellTypedCloses(m, addr);
    case Not(inner) => WellTypedCloses(m, inner);
    case Slice(inner, _, _) => WellTypedCloses(m, inner);
    case Zext(inner, _) => WellTypedCloses(m, inner);
    case Sext(inner, _) => WellTypedCloses(m, inner);
    case Trunc(inner, _) => WellTypedCloses(m, inner);
    case Cast(inner, _) => WellTypedCloses(m, inner);
  }

  lemma {:induction false} PartsClose(m: Module, parts: seq<Expr>)
    requires forall i | 0 <= i < |parts| :: WellTyped(m, parts[i])
    ensures FlatEval.ClosedParts(m, parts)
    decreases parts
  {
    if parts != [] {
      WellTypedCloses(m, parts[0]);
      assert forall i | 0 <= i < |parts| - 1 :: parts[1..][i] == parts[i + 1];
      PartsClose(m, parts[1..]);
    }
  }

  // ----------------------------------------------------------------- modules

  /** An assignment drives an output or a wire with a value of its type. */
  predicate AssignmentOk(m: Module, a: Assignment) {
    Drivable(m, a.dst) && WellTyped(m, a.expr) && TypeOf(m, a.expr) == SignalType(m, a.dst)
  }

  /** How many of the first n assignments drive a signal of the module. */
  function DriverCount(m: Module, x: Signal, n: nat): (count: nat)
    requires n <= |m.assignments|
  {
    if n == 0 then 0
    else DriverCount(m, x, n - 1) + if m.Owns(x) && m.assignments[n - 1].dst == x then 1 else 0
  }

  lemma {:induction false} CountPositive(m: Module, x: Signal, n: nat)
    requires n <= |m.assignments| && m.Owns(x)
    ensures DriverCount(m, x, n) > 0 <==> exists j | 0 <= j < n :: m.assignments[j].dst == x
  {
    if n > 0 {
      CountPositive(m, x, n - 1);
    }
  }

  /** More than one driver means two assignments to the same signal. */
  lemma {:induction false} CountTwo(m: Module, x: Signal, n: nat)
    requires n <= |m.assignments| && m.Owns(x)
    ensures DriverCount(m, x, n) > 1
            <==> exists j, k | 0 <= j < k < n :: m.assignments[j].dst == x && m.assignments[k].dst == x
  {
    if n > 0 {
      CountTwo(m, x, n - 1);
      CountPositive(m, x, n - 1);
      if m.assignments[n - 1].dst == x && DriverCount(m, x, n - 1) > 0 {
        var j :| 0 <= j < n - 1 && m.assignments[j].dst == x;
        assert m.assignments[j].dst == x && m.assignments[n - 1].dst == x;
      }
    }
  }

  predicate SingleDrivers(m: Module) {
    forall j, k | 0 <= j < k < |m.assignments| && m.Owns(m.assignments[j].dst) ::
      m.assignments[j].dst != m.assignments[k].dst
  }

  /** The first loop of `validate_assignments`, one assignment. */
  method CheckAssignment(m: Module, a: Assignment, d: Report)
    modifies d
    ensures Reports(d, AssignmentOk(m, a))
  {
    if !m.Owns(a.dst) {
      d.Push(E_ASSIGN_DST);
      return;
    }
    var info := m.signals[a.dst.id];
    if !info.kind.Output? && !info.kind.Wire? {
      d.Push(E_ASSIGN_KIND);
    }
    var ty := ExprType(m, a.expr, d);
    Expect(ty, info.ty, E_ASSIGN_TYPE, d);
  }

  function Counted(drivers: map<Signal, nat>, x: Signal): nat {
    if x in drivers then drivers[x] else 0
  }

  predicate AssignmentsUpto(m: Module, n: nat)
    requires n <= |m.assignments|
  {
    forall k | 0 <= k < n :: AssignmentOk(m, m.assignments[k])
  }

  lemma AssignmentsMore(m: Module, n: nat)
    requires n < |m.assignments|
    ensures AssignmentsUpto(m, n + 1) <==> AssignmentsUpto(m, n) && AssignmentOk(m, m.assignments[n])
  {
  }

  predicate Once(drivers: map<Signal, nat>, pending: set<Signal>) {
    forall x | x in drivers && x !in pending :: drivers[x] <= 1
  }

  /** The driver counts after the first n assignments. */
  ghost predicate CountsUpto(m: Module, drivers: map<Signal, nat>, n: nat)
    requires n <= |m.assignments|
  {
    && (forall x :: Counted(drivers, x) == DriverCount(m, x, n))
    && (forall x | x in drivers :: m.Owns(x))
  }

  /** The first loop of `validate_assignments`. */
  method CheckAssignments(m: Module, d: Report) returns (drivers: map<Signal, nat>)
    modifies d
    ensures CountsUpto(m, drivers, |m.assignments|)
    ensures Reports(d, AssignmentsUpto(m, |m.assignments|))
  {
    drivers := map[];
    var j := 0;
    while j < |m.assignments|
      invariant j <= |m.assignments| && CountsUpto(m, drivers, j)
      invariant Reports(d, AssignmentsUpto(m, j))
    {
      var a := m.assignments[j];
      AssignmentsMore(m, j);
      CheckAssignment(m, a, d);
      if m.Owns(a.dst) {
        drivers := drivers[a.dst := Counted(drivers, a.dst) + 1];
      }
      j := j + 1;
    }
  }

  /** The loop over the counts. */
  method CheckCounts(drivers: map<Signal, nat>, d: Report)
    modifies d
    ensures Reports(d, Once(drivers, {}))
  {
    var pending := drivers.Keys;
    while pending != {}
      invariant pending <= drivers.Keys && Reports(d, Once(drivers, pending))
      decreases pending
    {
      var x :| x in pending;
      if drivers[x] > 1 {
        d.Push(E_MULTI_DRIVER);
      }
      pending := pending - {x};
    }
  }

  /** `validate_assignments` */
  method ValidateAssignments(m: Module, d: Report)
    modifies d
    ensures Reports(d, SingleDrivers(m) && forall a | a in m.assignments :: AssignmentOk(m, a))
  {
    var drivers := CheckAssignments(m, d);
    CheckCounts(drivers, d);
    DriversSingle(m, drivers);
    AllAssignments(m);
  }

  lemma AllAssignments(m: Module)
    ensures AssignmentsUpto(m, |m.assignments|) <==> forall a | a in m.assignments :: AssignmentOk(m, a)
  {
  }

  lemma DriversSingle(m: Module, drivers: map<Signal, nat>)
    requires CountsUpto(m, drivers, |m.assignments|)
    ensures SingleDrivers(m) <==> Once(drivers, {})
  {
    var n := |m.assignments|;
    if !SingleDrivers(m) {
      var j, k :| 0 <= j < k < n && m.Owns(m.assignments[j].dst)
                  && m.assignments[j].dst == m.assignments[k].dst;
      CountTwo(m, m.assignments[j].dst, n);
      assert Counted(drivers, m.assignments[j].dst) > 1;
    }
    if x :| x in drivers && drivers[x] > 1 {
      CountTwo(m, x, n);
      assert Counted(drivers, x) == DriverCount(m, x, n);
      var j, k :| 0 <= j < k < n && m.assignments[j].dst == x && m.assignments[k].dst == x;
    }
  }

  predicate WriteOk(m: Module, w: MemoryWrite) {
    && IsMem(m, w.mem)
    && m.Owns(w.clock) && m.WidthOf(w.clock) == 1
    && WellTyped(m, w.enable) && Width(m, w.enable) == 1
    && WellTyped(m, w.addr) && TypeOf(m, w.addr) == Some(UInt(m.signals[w.mem.id].kind.addrWidth))
    && WellTyped(m, w.data) && TypeOf(m, w.data) == SignalType(m, w.mem)
  }

  method CheckWidthOne(ty: Option<BitType>, code: Code, d: Report)
    modifies d
    ensures Reports(d, ty.None? || ty.value.width == 1)
  {
    if ty.Some? && ty.value.width != 1 {
      d.Push(code);
    }
  }

  method CheckWrite(m: Module, w: MemoryWrite, d: Report)
    modifies d
    ensures Reports(d, WriteOk(m, w))
  {
    if !IsMem(m, w.mem) {
      d.Push(E_MEM_WRITE_TARGET);
      return;
    }
    var info := m.signals[w.mem.id];
    var clock := CheckSignal(m, w.clock, d);
    CheckWidthOne(clock, E_CLOCK_WIDTH, d);
    var enable := ExprType(m, w.enable, d);
    CheckWidthOne(enable, E_MEM_ENABLE_WIDTH, d);
    var addr := ExprType(m, w.addr, d);
    Expect(addr, UInt(info.kind.addrWidth), E_MEM_ADDR_WIDTH, d);
    var data := ExprType(m, w.data, d);
    Expect(data, info.ty, E_MEM_DATA_WIDTH, d);
  }

  /** `validate_memory_writes` */
  method ValidateMemoryWrites(m: Module, d: Report)
    modifies d
    ensures Reports(d, forall w | w in m.memoryWrites :: WriteOk(m, w))
  {
    var j := 0;
    while j < |m.memoryWrites|
      invariant j <= |m.memoryWrites|
      invariant Reports(d, forall k | 0 <= k < j :: WriteOk(m, m.memoryWrites[k]))
    {
      CheckWrite(m, m.memoryWrites[j], d);
      j := j + 1;
    }
  }

  predicate RegisterOk(m: Module, info: SignalInfo)
    requires info.kind.Reg?
  {
    var kind := info.kind;
    && kind.clock.Some? && m.Owns(kind.clock.value) && m.WidthOf(kind.clock.value) == 1
    && (kind.reset.Some? ==>
          && m.Owns(kind.reset.value.signal) && m.WidthOf(kind.reset.value.signal) == 1
          && FitsType(kind.reset.value.value, info.ty))
    && kind.next.Some? && WellTyped(m, kind.next.value) && TypeOf(m, kind.next.value) == Some(info.ty)
  }

  method CheckReset(m: Module, r: Reset, ty: BitType, d: Report)
    modifies d
    ensures Reports(d, m.Owns(r.signal) && m.WidthOf(r.signal) == 1 && FitsType(r.value, ty))
  {
    var signal := CheckSignal(m, r.signal, d);
    CheckWidthOne(signal, E_RESET_WIDTH, d);
    if !FitsType(r.value, ty) {
      d.Push(E_RESET_VALUE_WIDTH);
    }
  }

  method CheckRegister(m: Module, info: SignalInfo, d: Report)
    requires info.kind.Reg?
    modifies d
    ensures Reports(d, RegisterOk(m, info))
  {
    if info.kind.clock.Some? {
      var clock := CheckSignal(m, info.kind.clock.value, d);
      CheckWidthOne(clock, E_CLOCK_WIDTH, d);
    } else {
      d.Push(E_REG_CLOCK_MISSING);
    }
    if info.kind.reset.Some? {
      CheckReset(m, info.kind.reset.value, info.ty, d);
    }
    if info.kind.next.Some? {
      var next := ExprType(m, info.kind.next.value, d);
      Expect(next, info.ty, E_REG_NEXT_TYPE, d);
    } else {
      d.Push(E_REG_NEXT_MISSING);
    }
  }

  /** `validate_registers` */
  method ValidateRegisters(m: Module, d: Report)
    modifies d
    ensures Reports(d, forall i | 0 <= i < |m.signals| && m.signals[i].kind.Reg? :: RegisterOk(m, m.signals[i]))
  {
    var i := 0;
    while i < |m.signals|
      invariant i <= |m.signals|
      invariant Reports(d, forall k | 0 <= k < i && m.signals[k].kind.Reg? :: RegisterOk(m, m.signals[k]))
    {
      if m.signals[i].kind.Reg? {
        CheckRegister(m, m.signals[i], d);
      }
      i := i + 1;
    }
  }

  /** The logic of a module passes its checks. */
  predicate LogicOk(m: Module) {
    && SingleDrivers(m)
    && (forall a | a in m.assignments :: AssignmentOk(m, a))
    && (forall w | w in m.memoryWrites :: WriteOk(m, w))
    && (forall i | 0 <= i < |m.signals| && m.signals[i].kind.Reg? :: RegisterOk(m, m.signals[i]))
  }

  /** The part of `validate_module` that concerns assignments, memory writes and
      registers. */
  method ValidateLogic(m: Module, d: Report)
    modifies d
    ensures Reports(d, LogicOk(m))
  {
    ValidateAssignments(m, d);
    ValidateMemoryWrites(m, d);
    ValidateRegisters(m, d);
  }
}
