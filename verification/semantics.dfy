/** What an expression evaluates to in the simulator, what it means on its
    own width, and when the two agree.

    The simulator computes on whole 128-bit words and masks only in a few
    operators, so `!x` or `x - y` leaves bits above the expression's width.
    `EvalAgrees` shows that this is invisible as long as the operators that
    look at a whole word are given operands that are already clean, and
    `MuxOfNot` / `EqualToNot` / `WidenedNot` say exactly what happens otherwise. */
module Semantics {
  import opened Words
  import opened Rtl

  type Values = map<Signal, Word>
  type Memories = map<Signal, seq<Word>>

  datatype Store = Store(values: Values, mems: Memories)

  /** `Simulator::get`: an unknown handle reads 0. */
  function Get(values: Values, s: Signal): Word {
    if s in values then values[s] else 0
  }

  /** `encode_value`: cast to a word, then mask. */
  function Encode(value: int, width: nat): (r: Word)
    ensures r < Pow2(width)
  {
    var word: Word := Wrap(value);
    Masked(word, width)
  }

  /** `value & mask(width)` */
  function Masked(x: Word, width: nat): (r: Word)
    ensures r == Low(x, width) && r <= x && r < Pow2(width)
  {
    LowLeq(x, width);
    Low(x, width)
  }

  /** The low 128 bits of an integer: the wrapping arithmetic of u128. */
  function Wrap(x: int): Word {
    Low(x, BITS)
  }

  function ArithInt(op: ArithOp, a: int, b: int): int {
    match op
    case AddOp => a + b
    case SubOp => a - b
    case MulOp => a * b
  }

  function Flag(b: bool): (w: Word)
    ensures w < 2
  {
    assert Pow2(1) == 2;
    Pow2Mono(1, BITS);
    if b then 1 else 0
  }

  function BitsWord(op: BitOp, a: Word, b: Word): Word {
    BitwiseBound(op, a, b, BITS);
    Bitwise(op, a, b)
  }

  /** `x << shift` drops what leaves the word. */
  function ShiftLeft(x: Word, shift: nat): Word {
    Wrap(x * Pow2(shift))
  }

  function ShiftRight(x: Word, shift: nat): (r: Word)
    ensures r <= x
  {
    DivLeq(x, Pow2(shift));
    x / Pow2(shift)
  }

  /** `memory.get(addr as usize)`, 0 when out of range or no such memory. */
  function ReadMem(mems: Memories, mem: Signal, addr: Word): Word {
    var a := Masked(addr, 64);
    if mem in mems && a < |mems[mem]| then mems[mem][a] else 0
  }

  /** `Simulator::eval_expr` */
  function Eval(m: Module, st: Store, e: Expr): Word
    decreases e
  {
    match e
    case Lit(value, ty) => Encode(value, ty.width)
    case Ref(s) => Get(st.values, s)
    case Not(inner) => NotWord(Eval(m, st, inner))
    case Bits(op, l, r) => BitsWord(op, Eval(m, st, l), Eval(m, st, r))
    case Arith(op, l, r) => Wrap(ArithInt(op, Eval(m, st, l), Eval(m, st, r)))
    case Compare(op, l, r) =>
      CompareWords(op, TypeOr(m, l, UInt(BITS)), Eval(m, st, l), Eval(m, st, r))
    case Mux(cond, t, f) =>
      if Eval(m, st, cond) != 0 then Eval(m, st, t) else Eval(m, st, f)
    case Slice(inner, lsb, width) => Masked(ShiftRight(Eval(m, st, inner), lsb), width)
    case Zext(inner, width) => Masked(Eval(m, st, inner), width)
    case Sext(inner, width) =>
      Encode(SignedValue(Eval(m, st, inner), TypeOr(m, inner, UInt(width)).width), width)
    case Trunc(inner, width) => Masked(Eval(m, st, inner), width)
    case Cast(inner, _) => Eval(m, st, inner)
    case Concat(parts) => EvalParts(m, st, parts).0
    case MemRead(mem, addr) => ReadMem(st.mems, mem, Eval(m, st, addr))
  }

  /** The `concat` loop, last part first: the value so far and the shift so far. */
  function EvalParts(m: Module, st: Store, parts: seq<Expr>): (Word, nat)
    decreases parts
  {
    if parts == [] then (Flag(false), 0)
    else
      var (value, shift) := EvalParts(m, st, parts[1..]);
      (BitsWord(OrOp, value, ShiftLeft(Eval(m, st, parts[0]), shift)),
       shift + Width(m, parts[0]))
  }

  function CompareWords(op: CompareOp, lhsTy: BitType, a: Word, b: Word): Word {
    match op
    case EqOp => Flag(a == b)
    case NeOp => Flag(a != b)
    case LtOp =>
      if lhsTy.signedness.Signed? then
        Flag(SignedValue(a, lhsTy.width) < SignedValue(b, lhsTy.width))
      else Flag(a < b)
  }

  // --------------------------------------------------- width-exact meaning

  /** Every signal, and every memory word, fits its declared width. */
  predicate InRange(m: Module, st: Store) {
    && (forall s | s in st.values && m.Owns(s) :: st.values[s] < Pow2(m.WidthOf(s)))
    && (forall s | s in st.mems && m.Owns(s) ::
          forall i | 0 <= i < |st.mems[s]| :: st.mems[s][i] < Pow2(m.WidthOf(s)))
  }

  /** What an expression denotes: every operator is the operation on numbers of
      its operands' width.  On a well-typed expression the result is below
      2^width (`MeaningBound`). */
  function Meaning(m: Module, st: Store, e: Expr): nat
    decreases e
  {
    match e
    case Lit(value, ty) => Low(value, ty.width)
    case Ref(s) => Get(st.values, s)
    case Not(inner) => Low(-1 - Meaning(m, st, inner), Width(m, inner))
    case Bits(op, l, r) => Bitwise(op, Meaning(m, st, l), Meaning(m, st, r))
    case Arith(op, l, r) =>
      Low(ArithInt(op, Meaning(m, st, l), Meaning(m, st, r)), Width(m, l))
    case Compare(op, l, r) =>
      CompareNumbers(op, TypeOr(m, l, UInt(BITS)), Meaning(m, st, l), Meaning(m, st, r))
    case Mux(cond, t, f) =>
      if Meaning(m, st, cond) == 1 then Meaning(m, st, t) else Meaning(m, st, f)
    case Slice(inner, lsb, width) => Low(Meaning(m, st, inner) / Pow2(lsb), width)
    case Zext(inner, _) => Meaning(m, st, inner)
    case Sext(inner, width) => Low(AsSigned(Meaning(m, st, inner), Width(m, inner)), width)
    case Trunc(inner, width) => Low(Meaning(m, st, inner), width)
    case Cast(inner, _) => Meaning(m, st, inner)
    case Concat(parts) => MeaningParts(m, st, parts)
    case MemRead(mem, addr) => MeaningRead(st.mems, mem, Meaning(m, st, addr))
  }

  /** The parts side by side, the first one on top. */
  function MeaningParts(m: Module, st: Store, parts: seq<Expr>): nat
    decreases parts
  {
    if parts == [] then 0
    else
      Meaning(m, st, parts[0]) * Pow2(PartsWidth(m, parts[1..])) + MeaningParts(m, st, parts[1..])
  }

  function CompareNumbers(op: CompareOp, ty: BitType, a: nat, b: nat): nat {
    match op
    case EqOp => if a == b then 1 else 0
    case NeOp => if a != b then 1 else 0
    case LtOp =>
      if ty.signedness.Signed? then (if AsSigned(a, ty.width) < AsSigned(b, ty.width) then 1 else 0)
      else if a < b then 1 else 0
  }

  function MeaningRead(mems: Memories, mem: Signal, addr: nat): nat {
    if mem in mems && addr < |mems[mem]| then mems[mem][addr] else 0
  }

  /** A w-bit number read as two's complement. */
  function AsSigned(v: nat, w: nat): int {
    if w == 0 then 0 else if v < Pow2(w - 1) then v else v - Pow2(w)
  }
}
