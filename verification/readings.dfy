/** What well-typed expressions compute, as integers: a word is read as its type
    says, and every operator is the operation on those integers, brought back
    into the type. */
module Readings {
  import opened Words
  import opened Rtl
  import opened Semantics

  /** A word of the type, as an integer. */
  function Reading(ty: BitType, x: nat): int {
    if ty.signedness.Signed? then AsSigned(x, ty.width) else x
  }

  /** The integers a type holds. */
  predicate InType(ty: BitType, v: int) {
    ty.width > 0 &&
    match ty.signedness
    case Unsigned => 0 <= v < Pow2(ty.width)
    case Signed => -(Pow2(ty.width - 1) as int) <= v < Pow2(ty.width - 1)
  }

  /** `r` is `v` brought into the type. */
  predicate WrapsTo(ty: BitType, v: int, r: int) {
    InType(ty, r) && Low(v, ty.width) == Low(r, ty.width)
  }

  lemma HalfPower(w: nat)
    requires w > 0
    ensures Pow2(w) == 2 * Pow2(w - 1)
  {
  }

  /** Reading loses nothing. */
  lemma ReadingBack(ty: BitType, x: nat)
    requires ty.width > 0 && x < Pow2(ty.width)
    ensures InType(ty, Reading(ty, x)) && Low(Reading(ty, x), ty.width) == x
  {
    HalfPower(ty.width);
    if ty.signedness.Signed? && x >= Pow2(ty.width - 1) {
      DivModUnique(x - Pow2(ty.width), Pow2(ty.width), -1, x);
    } else {
      LowSmall(x, ty.width);
    }
  }

  /** An integer of the type is the reading of its low bits. */
  lemma ReadingOf(ty: BitType, v: int)
    requires InType(ty, v)
    ensures Reading(ty, Low(v, ty.width)) == v
  {
    HalfPower(ty.width);
    if v >= 0 {
      DivModUnique(v, Pow2(ty.width), 0, v);
    } else {
      DivModUnique(v, Pow2(ty.width), -1, v + Pow2(ty.width));
    }
  }

  /** There is one way to bring an integer into a type, and one that is in it
      stays. */
  lemma WrapsOneWay(ty: BitType, v: int, r: int, s: int)
    requires WrapsTo(ty, v, r) && WrapsTo(ty, v, s)
    ensures r == s
    ensures InType(ty, v) ==> r == v
  {
    ReadingOf(ty, r);
    ReadingOf(ty, s);
    if InType(ty, v) {
      ReadingOf(ty, v);
    }
  }

  /** Below 128 bits `fits_type` accepts exactly the readings of the words of the
      type. */
  lemma FitsRead(v: int, ty: BitType)
    requires 0 < ty.width < BITS
    ensures FitsType(v, ty) <==> exists x: nat | x < Pow2(ty.width) :: Reading(ty, x) == v
  {
    if FitsType(v, ty) {
      ReadingOf(ty, v);
      assert Low(v, ty.width) < Pow2(ty.width);
    }
    if x: nat :| x < Pow2(ty.width) && Reading(ty, x) == v {
      ReadingBack(ty, x);
    }
  }

  // -------------------------------------------------------------- magnitude

  /** A well-typed expression means a number of its width. */
  lemma {:induction false} MeaningBound(m: Module, st: Store, e: Expr)
    requires WellTyped(m, e) && InRange(m, st)
    ensures Meaning(m, st, e) < Pow2(Width(m, e))
    decreases e
  {
    match e
    case Bits(op, l, r) =>
      MeaningBound(m, st, l);
      MeaningBound(m, st, r);
      BitwiseBound(op, Meaning(m, st, l), Meaning(m, st, r), Width(m, e));
    case Mux(_, t, f) =>
      MeaningBound(m, st, t);
      MeaningBound(m, st, f);
    case Zext(inner, width) =>
      MeaningBound(m, st, inner);
      Pow2Mono(Width(m, inner), width);
    case Cast(inner, _) =>
      MeaningBound(m, st, inner);
    case Concat(parts) =>
      PartsBound(m, st, parts);
    case Compare(op, l, r) =>
      assert Pow2(1) == 2;
    case _ =>
  }

  lemma {:induction false} PartsBound(m: Module, st: Store, parts: seq<Expr>)
    requires (forall i | 0 <= i < |parts| :: WellTyped(m, parts[i])) && InRange(m, st)
    ensures MeaningParts(m, st, parts) < Pow2(PartsWidth(m, parts))
    decreases parts
  {
    if parts != [] {
      MeaningBound(m, st, parts[0]);
      assert forall i | 0 <= i < |parts| - 1 :: parts[1..][i] == parts[i + 1];
      PartsBound(m, st, parts[1..]);
      Pow2Add(Width(m, parts[0]), PartsWidth(m, parts[1..]));
      BesideLess(Meaning(m, st, parts[0]), MeaningParts(m, st, parts[1..]),
                 Pow2(Width(m, parts[0])), Pow2(PartsWidth(m, parts[1..])));
    }
  }

  /** The integer an expression stands for. */
  function Reads(m: Module, st: Store, e: Expr): int {
    Reading(TypeOr(m, e, UInt(0)), Meaning(m, st, e))
  }

  function TypeIn(m: Module, e: Expr): BitType {
    TypeOr(m, e, UInt(0))
  }

  lemma ReadsBack(m: Module, st: Store, e: Expr)
    requires WellTyped(m, e) && Width(m, e) > 0 && InRange(m, st)
    ensures InType(TypeIn(m, e), Reads(m, st, e))
    ensures Low(Reads(m, st, e), Width(m, e)) == Meaning(m, st, e)
  {
    MeaningBound(m, st, e);
    ReadingBack(TypeIn(m, e), Meaning(m, st, e));
  }

  // -------------------------------------------------------------- arithmetic

  function Times(l: Expr, r: Expr): Expr { Arith(MulOp, l, r) }

  // Sums, differences and products of integers, brought into the operands' type.

  lemma SumReads(m: Module, st: Store, l: Expr, r: Expr)
    requires WellTyped(m, Plus(l, r)) && Width(m, l) > 0 && InRange(m, st)
    ensures TypeIn(m, l) == TypeIn(m, r) == TypeIn(m, Plus(l, r))
    ensures WrapsTo(TypeIn(m, l), Reads(m, st, l) + Reads(m, st, r), Reads(m, st, Plus(l, r)))
  {
    ArithOperands(m, st, AddOp, l, r);
    SumMeans(m, st, l, r);
    ModAdd(Reads(m, st, l), Reads(m, st, r), Pow2(Width(m, l)));
    Lands(m, st, Plus(l, r), TypeIn(m, l), Reads(m, st, l) + Reads(m, st, r));
  }

  lemma DifferenceReads(m: Module, st: Store, l: Expr, r: Expr)
    requires WellTyped(m, Minus(l, r)) && Width(m, l) > 0 && InRange(m, st)
    ensures TypeIn(m, l) == TypeIn(m, r) == TypeIn(m, Minus(l, r))
    ensures WrapsTo(TypeIn(m, l), Reads(m, st, l) - Reads(m, st, r), Reads(m, st, Minus(l, r)))
  {
    ArithOperands(m, st, SubOp, l, r);
    DifferenceMeans(m, st, l, r);
    ModSub(Reads(m, st, l), Reads(m, st, r), Pow2(Width(m, l)));
    Lands(m, st, Minus(l, r), TypeIn(m, l), Reads(m, st, l) - Reads(m, st, r));
  }

  lemma ProductReads(m: Module, st: Store, l: Expr, r: Expr)
    requires WellTyped(m, Times(l, r)) && Width(m, l) > 0 && InRange(m, st)
    ensures TypeIn(m, l) == TypeIn(m, r) == TypeIn(m, Times(l, r))
    ensures WrapsTo(TypeIn(m, l), Reads(m, st, l) * Reads(m, st, r), Reads(m, st, Times(l, r)))
  {
    ArithOperands(m, st, MulOp, l, r);
    ProductMeans(m, st, l, r);
    ModMul(Reads(m, st, l), Reads(m, st, r), Pow2(Width(m, l)));
    Lands(m, st, Times(l, r), TypeIn(m, l), Reads(m, st, l) * Reads(m, st, r));
  }

  lemma ArithOperands(m: Module, st: Store, op: ArithOp, l: Expr, r: Expr)
    requires WellTyped(m, Arith(op, l, r)) && Width(m, l) > 0 && InRange(m, st)
    ensures TypeIn(m, l) == TypeIn(m, r) == TypeIn(m, Arith(op, l, r))
    ensures Low(Reads(m, st, l), Width(m, l)) == Meaning(m, st, l)
    ensures Low(Reads(m, st, r), Width(m, l)) == Meaning(m, st, r)
  {
    ReadsBack(m, st, l);
    ReadsBack(m, st, r);
  }

  lemma Lands(m: Module, st: Store, e: Expr, ty: BitType, v: int)
    requires TypeIn(m, e) == ty && ty.width > 0 && Meaning(m, st, e) == Low(v, ty.width)
    ensures WrapsTo(ty, v, Reads(m, st, e))
  {
    ReadingBack(ty, Meaning(m, st, e));
  }

  lemma SumMeans(m: Module, st: Store, l: Expr, r: Expr)
    ensures Meaning(m, st, Plus(l, r)) == Low(Meaning(m, st, l) + Meaning(m, st, r), Width(m, l))
    ensures Eval(m, st, Plus(l, r)) == Low(Eval(m, st, l) + Eval(m, st, r), BITS)
  {
  }

  lemma DifferenceMeans(m: Module, st: Store, l: Expr, r: Expr)
    ensures Meaning(m, st, Minus(l, r)) == Low(Meaning(m, st, l) - Meaning(m, st, r), Width(m, l))
  {
  }

  lemma ProductMeans(m: Module, st: Store, l: Expr, r: Expr)
    ensures Meaning(m, st, Times(l, r)) == Low(Meaning(m, st, l) * Meaning(m, st, r), Width(m, l))
    ensures Eval(m, st, Times(l, r)) == Low(Eval(m, st, l) * Eval(m, st, r), BITS)
  {
  }

  /** Multiplying by 0 and by 1, and over a sum: on widths and on raw words. */
  lemma TimesLaws(m: Module, st: Store, x: Expr, y: Expr, z: Expr)
    requires WellTyped(m, x) && TypeOf(m, x) == TypeOf(m, y) == TypeOf(m, z) && Width(m, x) > 0
    requires InRange(m, st)
    ensures Meaning(m, st, Times(x, LitU(0, Width(m, x)))) == 0 == Eval(m, st, Times(x, LitU(0, Width(m, x))))
    ensures Meaning(m, st, Times(x, LitU(1, Width(m, x)))) == Meaning(m, st, x)
    ensures Eval(m, st, Times(x, LitU(1, Width(m, x)))) == Eval(m, st, x)
    ensures Meaning(m, st, Times(x, Plus(y, z))) == Meaning(m, st, Plus(Times(x, y), Times(x, z)))
    ensures Eval(m, st, Times(x, Plus(y, z))) == Eval(m, st, Plus(Times(x, y), Times(x, z)))
  {
    MeaningBound(m, st, x);
    TimesLit(m, st, x, 0);
    TimesLit(m, st, x, 1);
    TimesSum(m, st, x, y, z);
  }

  lemma TimesLit(m: Module, st: Store, x: Expr, n: nat)
    requires n < 2 && Width(m, x) > 0 && Meaning(m, st, x) < Pow2(Width(m, x))
    ensures Meaning(m, st, Times(x, LitU(n, Width(m, x)))) == if n == 0 then 0 else Meaning(m, st, x)
    ensures Eval(m, st, Times(x, LitU(n, Width(m, x)))) == if n == 0 then 0 else Eval(m, st, x)
  {
    SmallLits(Width(m, x));
    ProductMeans(m, st, x, LitU(n, Width(m, x)));
    ZeroAndOne(Meaning(m, st, x), Width(m, x));
    ZeroAndOne(Eval(m, st, x), BITS);
  }

  lemma TimesSum(m: Module, st: Store, x: Expr, y: Expr, z: Expr)
    requires TypeOf(m, x) == TypeOf(m, y) == TypeOf(m, z)
    ensures Meaning(m, st, Times(x, Plus(y, z))) == Meaning(m, st, Plus(Times(x, y), Times(x, z)))
    ensures Eval(m, st, Times(x, Plus(y, z))) == Eval(m, st, Plus(Times(x, y), Times(x, z)))
  {
    ArithTypes(m, x, y);
    TermsMeet(m, st, x, y, z, Plus(y, z), Times(x, y), Times(x, z));
  }

  lemma ArithTypes(m: Module, l: Expr, r: Expr)
    requires TypeOf(m, l) == TypeOf(m, r)
    ensures Width(m, Times(l, r)) == Width(m, l)
  {
  }

  lemma TermsMeet(m: Module, st: Store, x: Expr, y: Expr, z: Expr, s: Expr, p: Expr, q: Expr)
    requires s == Plus(y, z) && p == Times(x, y) && q == Times(x, z)
    requires Width(m, p) == Width(m, y) == Width(m, x)
    ensures Meaning(m, st, Times(x, s)) == Meaning(m, st, Plus(p, q))
    ensures Eval(m, st, Times(x, s)) == Eval(m, st, Plus(p, q))
  {
    SumMeans(m, st, y, z);
    ProductMeans(m, st, x, y);
    ProductMeans(m, st, x, z);
    TimesTerm(m, st, x, s, p, q);
    OverSumIs(Meaning(m, st, x), Meaning(m, st, y), Meaning(m, st, z), Width(m, x),
              Meaning(m, st, s), Meaning(m, st, p), Meaning(m, st, q));
    OverSumIs(Eval(m, st, x), Eval(m, st, y), Eval(m, st, z), BITS,
              Eval(m, st, s), Eval(m, st, p), Eval(m, st, q));
  }

  lemma TimesTerm(m: Module, st: Store, x: Expr, s: Expr, p: Expr, q: Expr)
    requires Width(m, p) == Width(m, x)
    ensures Meaning(m, st, Times(x, s)) == Low(Meaning(m, st, x) * Meaning(m, st, s), Width(m, x))
    ensures Meaning(m, st, Plus(p, q)) == Low(Meaning(m, st, p) + Meaning(m, st, q), Width(m, x))
    ensures Eval(m, st, Times(x, s)) == Low(Eval(m, st, x) * Eval(m, st, s), BITS)
    ensures Eval(m, st, Plus(p, q)) == Low(Eval(m, st, p) + Eval(m, st, q), BITS)
  {
    ProductMeans(m, st, x, s);
    SumMeans(m, st, p, q);
  }

  lemma OverSumIs(x: int, y: int, z: int, w: nat, sum: int, first: int, second: int)
    requires sum == Low(y + z, w) && first == Low(x * y, w) && second == Low(x * z, w)
    ensures Low(x * sum, w) == Low(first + second, w)
  {
    OverSum(x, y, z, w);
  }

  lemma ZeroAndOne(x: nat, w: nat)
    requires x < Pow2(w)
    ensures Low(x * 0, w) == 0 && Low(x * 1, w) == x
  {
    LowSmall(0, w);
    LowSmall(x, w);
  }

  lemma SmallLits(w: nat)
    requires w > 0
    ensures Low(0, w) == 0 == Encode(0, w) && Low(1, w) == 1 == Encode(1, w)
  {
    HalfPower(w);
    HalfPower(BITS);
    LowSmall(0, w);
    LowSmall(1, w);
    LowSmall(0, BITS);
    LowSmall(1, BITS);
  }

  lemma OverSum(x: int, y: int, z: int, w: nat)
    ensures Low(x * Low(y + z, w), w) == Low(Low(x * y, w) + Low(x * z, w), w)
  {
    var p := Pow2(w);
    ModMul(x, y + z, p);
    ModMul(x, Low(y + z, w), p);
    ModMod(y + z, p, 1);
    ModAdd(x * y, x * z, p);
    assert x * (y + z) == x * y + x * z;
  }

  // ------------------------------------------------------------ bit by bit

  /** The three bitwise operators, told apart by addition. */
  lemma {:induction false} BitsSum(a: nat, b: nat)
    ensures Bitwise(XorOp, a, b) + 2 * Bitwise(AndOp, a, b) == a + b
    ensures Bitwise(OrOp, a, b) + Bitwise(AndOp, a, b) == a + b
    decreases a + b
  {
    if a != 0 || b != 0 {
      BitsSum(a / 2, b / 2);
      BitwiseUnfold(XorOp, a, b);
      BitwiseUnfold(AndOp, a, b);
      BitwiseUnfold(OrOp, a, b);
    }
  }

  lemma BitsRead(m: Module, st: Store, l: Expr, r: Expr)
    ensures Meaning(m, st, Bits(XorOp, l, r)) + 2 * Meaning(m, st, And(l, r))
         == Meaning(m, st, l) + Meaning(m, st, r)
    ensures Meaning(m, st, Or(l, r)) + Meaning(m, st, And(l, r)) == Meaning(m, st, l) + Meaning(m, st, r)
    ensures Eval(m, st, Bits(XorOp, l, r)) + 2 * Eval(m, st, And(l, r)) == Eval(m, st, l) + Eval(m, st, r)
    ensures Eval(m, st, Or(l, r)) + Eval(m, st, And(l, r)) == Eval(m, st, l) + Eval(m, st, r)
  {
    BitsSum(Meaning(m, st, l), Meaning(m, st, r));
    BitsSum(Eval(m, st, l), Eval(m, st, r));
  }

  /** The complement counts down from the top of the type. */
  lemma NotReads(m: Module, st: Store, e: Expr)
    requires WellTyped(m, e) && Width(m, e) > 0 && InRange(m, st)
    ensures TypeIn(m, Not(e)) == TypeIn(m, e)
    ensures Reads(m, st, Not(e))
         == if TypeIn(m, e).signedness.Signed? then -1 - Reads(m, st, e)
            else Pow2(Width(m, e)) - 1 - Reads(m, st, e)
  {
    ReadsBack(m, st, e);
    MeaningBound(m, st, e);
    NotInteger(TypeIn(m, e), Meaning(m, st, e));
  }

  lemma NotInteger(ty: BitType, x: nat)
    requires ty.width > 0 && x < Pow2(ty.width)
    ensures Reading(ty, Low(-1 - x, ty.width))
         == if ty.signedness.Signed? then -1 - Reading(ty, x) else Pow2(ty.width) - 1 - Reading(ty, x)
  {
    HalfPower(ty.width);
    DivModUnique(-1 - x, Pow2(ty.width), -1, Pow2(ty.width) - 1 - x);
  }

  // ------------------------------------------------- comparing and choosing

  /** Comparisons compare the integers, in either signedness. */
  lemma CompareReads(m: Module, st: Store, op: CompareOp, l: Expr, r: Expr)
    requires WellTyped(m, Compare(op, l, r)) && Width(m, l) > 0 && InRange(m, st)
    ensures
      var a, b := Reads(m, st, l), Reads(m, st, r);
      Reads(m, st, Compare(op, l, r))
      == match op
         case EqOp => if a == b then 1 else 0
         case NeOp => if a == b then 0 else 1
         case LtOp => if a < b then 1 else 0
  {
    ReadsBack(m, st, l);
    ReadsBack(m, st, r);
  }

  lemma MuxReads(m: Module, st: Store, c: Expr, t: Expr, f: Expr)
    requires WellTyped(m, Mux(c, t, f)) && InRange(m, st)
    ensures Reads(m, st, c) == 0 || Reads(m, st, c) == 1
    ensures Reads(m, st, Mux(c, t, f)) == if Reads(m, st, c) == 0 then Reads(m, st, f) else Reads(m, st, t)
  {
    assert Pow2(1) == 2;
    MeaningBound(m, st, c);
  }

  // --------------------------------------------------------------- resizing

  lemma LitReads(m: Module, st: Store, v: int, ty: BitType)
    requires WellTyped(m, Lit(v, ty)) && ty.width < BITS
    ensures Reads(m, st, Lit(v, ty)) == v
  {
    ReadingOf(ty, v);
  }

  // Zero extension keeps the word, sign extension the signed number; truncation and
  // casts keep the number modulo the width and make it fit.

  lemma ZextReads(m: Module, st: Store, e: Expr, width: nat)
    requires WellTyped(m, Zext(e, width)) && InRange(m, st)
    ensures Reads(m, st, Zext(e, width)) == Meaning(m, st, e) < Pow2(width)
  {
    MeaningBound(m, st, e);
    Pow2Mono(Width(m, e), width);
  }

  lemma SextReads(m: Module, st: Store, e: Expr, width: nat)
    requires WellTyped(m, Sext(e, width)) && 0 < Width(m, e) && InRange(m, st)
    ensures Reads(m, st, Sext(e, width)) == AsSigned(Meaning(m, st, e), Width(m, e))
  {
    MeaningBound(m, st, e);
    ReadingBack(SInt(Width(m, e)), Meaning(m, st, e));
    Pow2Mono(Width(m, e) - 1, width - 1);
    ReadingOf(SInt(width), AsSigned(Meaning(m, st, e), Width(m, e)));
  }

  lemma TruncReads(m: Module, st: Store, e: Expr, width: nat)
    requires WellTyped(m, Trunc(e, width)) && InRange(m, st)
    ensures WrapsTo(BitType(width, TypeIn(m, e).signedness), Reads(m, st, e), Reads(m, st, Trunc(e, width)))
  {
    var ty := TypeIn(m, e);
    ReadsBack(m, st, e);
    LowLow(Reads(m, st, e), width, ty.width);
    ReadingBack(BitType(width, ty.signedness), Low(Meaning(m, st, e), width));
  }

  lemma CastReads(m: Module, st: Store, e: Expr, signedness: Signedness)
    requires WellTyped(m, Cast(e, signedness)) && 0 < Width(m, e) && InRange(m, st)
    ensures WrapsTo(BitType(Width(m, e), signedness), Reads(m, st, e), Reads(m, st, Cast(e, signedness)))
  {
    ReadsBack(m, st, e);
    MeaningBound(m, st, e);
    ReadingBack(BitType(Width(m, e), signedness), Meaning(m, st, e));
  }

  /** The address of a well-typed read is in the memory's address space. */
  lemma AddressReads(m: Module, st: Store, mem: Signal, addr: Expr)
    requires WellTyped(m, MemRead(mem, addr)) && InRange(m, st)
    ensures 0 <= Reads(m, st, addr) < Pow2(m.signals[mem.id].kind.addrWidth)
    ensures
      var a := Reads(m, st, addr);
      Reads(m, st, MemRead(mem, addr))
      == if mem in st.mems && a < |st.mems[mem]| then Reading(m.signals[mem.id].ty, st.mems[mem][a])
         else Reading(m.signals[mem.id].ty, 0)
  {
    MeaningBound(m, st, addr);
  }

  /** Slices, concatenations, comparisons and zero extensions are plain numbers. */
  lemma PlainReads(m: Module, st: Store, e: Expr)
    requires WellTyped(m, e) && (e.Slice? || e.Concat? || e.Compare? || e.Zext?) && InRange(m, st)
    ensures 0 <= Reads(m, st, e) == Meaning(m, st, e) < Pow2(Width(m, e))
  {
    MeaningBound(m, st, e);
  }

  /** A slice divides, a concatenation puts its first part on top. */
  lemma PartsRead(m: Module, st: Store, e: Expr, lsb: nat, width: nat, parts: seq<Expr>)
    requires WellTyped(m, Slice(e, lsb, width)) && |parts| > 1
    ensures Reads(m, st, Slice(e, lsb, width)) == Meaning(m, st, e) / Pow2(lsb) % Pow2(width)
    ensures Reads(m, st, Concat(parts))
         == Meaning(m, st, parts[0]) * Pow2(Width(m, Concat(parts[1..]))) + Reads(m, st, Concat(parts[1..]))
  {
    ConcatReads(m, st, parts);
    ConcatReads(m, st, parts[1..]);
  }

  lemma ConcatReads(m: Module, st: Store, parts: seq<Expr>)
    requires parts != []
    ensures Reads(m, st, Concat(parts)) == MeaningParts(m, st, parts)
    ensures Width(m, Concat(parts)) == PartsWidth(m, parts)
  {
  }
}
