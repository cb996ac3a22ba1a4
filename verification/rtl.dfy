/** The RTL language: types, expressions, modules and the static type check.

    A signal handle names a module and a position in that module's signal
    list, as the intermediate representation does. */
module Rtl {
  import opened Words

  datatype Option<+T> = None | Some(value: T)

  datatype Signedness = Unsigned | Signed

  datatype BitType = BitType(width: nat, signedness: Signedness)

  function UInt(width: nat): BitType { BitType(width, Unsigned) }

  function SInt(width: nat): BitType { BitType(width, Signed) }

  datatype Signal = Signal(owner: nat, id: nat)

  datatype ArithOp = AddOp | SubOp | MulOp
  datatype CompareOp = EqOp | NeOp | LtOp

  datatype Expr =
    | Lit(value: int, ty: BitType)
    | Ref(signal: Signal)
    | Not(inner: Expr)
    | Bits(bitOp: BitOp, lhs: Expr, rhs: Expr)
    | Arith(arithOp: ArithOp, lhs: Expr, rhs: Expr)
    | Compare(compareOp: CompareOp, lhs: Expr, rhs: Expr)
    | Mux(cond: Expr, thenExpr: Expr, elseExpr: Expr)
    | Slice(inner: Expr, lsb: nat, width: nat)
    | Zext(inner: Expr, width: nat)
    | Sext(inner: Expr, width: nat)
    | Trunc(inner: Expr, width: nat)
    | Cast(inner: Expr, signedness: Signedness)
    | Concat(parts: seq<Expr>)
    | MemRead(mem: Signal, addr: Expr)

  function LitU(value: nat, width: nat): Expr { Lit(value, UInt(width)) }
  function And(l: Expr, r: Expr): Expr { Bits(AndOp, l, r) }
  function Or(l: Expr, r: Expr): Expr { Bits(OrOp, l, r) }
  function Plus(l: Expr, r: Expr): Expr { Arith(AddOp, l, r) }
  function Minus(l: Expr, r: Expr): Expr { Arith(SubOp, l, r) }
  function EqExpr(l: Expr, r: Expr): Expr { Compare(EqOp, l, r) }
  function NeExpr(l: Expr, r: Expr): Expr { Compare(NeOp, l, r) }

  datatype ResetKind = Sync | Async
  datatype Polarity = ActiveHigh | ActiveLow

  datatype Reset = Reset(signal: Signal, value: int, kind: ResetKind, polarity: Polarity)

  datatype SignalKind =
    | Input
    | Output
    | Wire
    | Reg(clock: Option<Signal>, reset: Option<Reset>, next: Option<Expr>)
    | Mem(addrWidth: nat, depth: nat)

  datatype SignalInfo = SignalInfo(ty: BitType, kind: SignalKind)

  datatype Assignment = Assignment(dst: Signal, expr: Expr)

  datatype MemoryWrite =
    MemoryWrite(mem: Signal, clock: Signal, enable: Expr, addr: Expr, data: Expr)

  datatype InitialRegister = InitialRegister(reg: Signal, value: int)
  datatype InitialWord = InitialWord(mem: Signal, addr: nat, value: int)

  datatype Module = Module(
    id: nat,
    signals: seq<SignalInfo>,
    assignments: seq<Assignment>,
    memoryWrites: seq<MemoryWrite>,
    initialRegisters: seq<InitialRegister>,
    initialWords: seq<InitialWord>)
  {
    predicate Owns(s: Signal) {
      s.owner == id && s.id < |signals|
    }

    function Handle(i: nat): Signal {
      Signal(id, i)
    }

    function WidthOf(s: Signal): nat
      requires Owns(s)
    {
      signals[s.id].ty.width
    }
  }

  // ------------------------------------------------------------ type check

  /** `fits_type` */
  predicate FitsType(value: int, ty: BitType) {
    if ty.width == 0 then false
    else if ty.width >= BITS then true
    else match ty.signedness
      case Unsigned => 0 <= value < Pow2(ty.width)
      case Signed => FitsSigned(value, ty.width)
  }

  /** The type `expr_type` computes, whatever it reports on the way. */
  function TypeOf(m: Module, e: Expr): Option<BitType>
    decreases e
  {
    match e
    case Lit(_, ty) => if ty.width == 0 then None else Some(ty)
    case Ref(s) => SignalType(m, s)
    case Not(inner) => TypeOf(m, inner)
    case Bits(_, l, r) => Join(TypeOf(m, l), TypeOf(m, r))
    case Arith(_, l, r) => Join(TypeOf(m, l), TypeOf(m, r))
    case Compare(_, _, _) => Some(UInt(1))
    case Mux(_, t, f) => Join(TypeOf(m, t), TypeOf(m, f))
    case Slice(_, _, width) => if width == 0 then None else Some(UInt(width))
    case Zext(_, width) => if width == 0 then None else Some(UInt(width))
    case Sext(_, width) => if width == 0 then None else Some(SInt(width))
    case Trunc(inner, width) => if width == 0 then None else Resize(TypeOf(m, inner), width)
    case Cast(inner, signedness) => Recast(TypeOf(m, inner), signedness)
    case Concat(parts) => if parts == [] then None else Some(UInt(PartsWidth(m, parts)))
    case MemRead(mem, _) => if IsMem(m, mem) then SignalType(m, mem) else None
  }

  function PartsWidth(m: Module, parts: seq<Expr>): nat
    decreases parts
  {
    if parts == [] then 0
    else WidthOr0(TypeOf(m, parts[0])) + PartsWidth(m, parts[1..])
  }

  function WidthOr0(ty: Option<BitType>): nat {
    if ty.Some? then ty.value.width else 0
  }

  function SignalType(m: Module, s: Signal): Option<BitType> {
    if m.Owns(s) then Some(m.signals[s.id].ty) else None
  }

  predicate IsMem(m: Module, s: Signal) {
    m.Owns(s) && m.signals[s.id].kind.Mem?
  }

  function Join(l: Option<BitType>, r: Option<BitType>): Option<BitType> {
    if l == r then l else None
  }

  function Resize(ty: Option<BitType>, width: nat): Option<BitType> {
    if ty.None? then None else Some(BitType(width, ty.value.signedness))
  }

  function Recast(ty: Option<BitType>, signedness: Signedness): Option<BitType> {
    if ty.None? then None else Some(BitType(ty.value.width, signedness))
  }

  /** `expr_width_no_diag(..).unwrap_or(0)` */
  function Width(m: Module, e: Expr): nat {
    WidthOr0(TypeOf(m, e))
  }

  /** `expr_type_no_diag(..).unwrap_or(default)` */
  function TypeOr(m: Module, e: Expr, default: BitType): BitType {
    if TypeOf(m, e).Some? then TypeOf(m, e).value else default
  }

  /** The check pushes no diagnostic on `e`. */
  predicate WellTyped(m: Module, e: Expr)
    decreases e
  {
    && TypeOf(m, e).Some?
    && match e
       case Lit(value, ty) => FitsType(value, ty)
       case Ref(_) => true
       case Not(inner) => WellTyped(m, inner)
       case Bits(_, l, r) => WellTyped(m, l) && WellTyped(m, r)
       case Arith(_, l, r) => WellTyped(m, l) && WellTyped(m, r)
       case Compare(_, l, r) =>
         WellTyped(m, l) && WellTyped(m, r) && TypeOf(m, l) == TypeOf(m, r)
       case Mux(cond, t, f) =>
         WellTyped(m, cond) && TypeOf(m, cond) == Some(UInt(1))
         && WellTyped(m, t) && WellTyped(m, f)
       case Slice(inner, lsb, width) => WellTyped(m, inner) && lsb + width <= Width(m, inner)
       case Zext(inner, width) => WellTyped(m, inner) && Width(m, inner) <= width
       case Sext(inner, width) => WellTyped(m, inner) && Width(m, inner) <= width
       case Trunc(inner, width) => WellTyped(m, inner) && width <= Width(m, inner)
       case Cast(inner, _) => WellTyped(m, inner)
       case Concat(parts) => forall i | 0 <= i < |parts| :: WellTyped(m, parts[i])
       case MemRead(mem, addr) =>
         WellTyped(m, addr) && TypeOf(m, addr) == Some(UInt(m.signals[mem.id].kind.addrWidth))
  }
}
