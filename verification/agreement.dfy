/** When the simulator's word-level evaluation agrees with the meaning of an
    expression on its own width. */
module Agreement {
  import opened Words
  import opened Rtl
  import opened Semantics

  /** The word computed for `e` has no bits above the width of `e`, whatever
      the signals hold. */
  predicate Canonical(m: Module, e: Expr)
    decreases e
  {
    match e
    case Lit(_, _) => true
    case Ref(_) => true
    case Not(_) => Width(m, e) >= BITS
    case Bits(AndOp, l, r) => Canonical(m, l) || Canonical(m, r)
    case Bits(_, l, r) => Canonical(m, l) && Canonical(m, r)
    case Arith(_, _, _) => Width(m, e) >= BITS
    case Compare(_, _, _) => true
    case Mux(_, t, f) => Canonical(m, t) && Canonical(m, f)
    case Slice(_, _, _) => true
    case Zext(_, _) => true
    case Sext(_, _) => true
    case Trunc(_, _) => true
    case Cast(inner, _) => Canonical(m, inner)
    case Concat(parts) => parts == [] || Canonical(m, parts[0])
    case MemRead(_, _) => true
  }

  /** Every operand whose whole word is looked at is canonical, and every
      width fits the machine word. */
  predicate Disciplined(m: Module, e: Expr)
    decreases e
  {
    && Width(m, e) <= BITS
    && match e
       case Lit(_, _) => true
       case Ref(_) => true
       case Not(inner) => Disciplined(m, inner)
       case Bits(_, l, r) => Disciplined(m, l) && Disciplined(m, r)
       case Arith(_, l, r) => Disciplined(m, l) && Disciplined(m, r)
       case Compare(op, l, r) =>
         && Disciplined(m, l) && Disciplined(m, r)
         && ((op.LtOp? && TypeOr(m, l, UInt(BITS)).signedness.Signed?)
             || (Canonical(m, l) && Canonical(m, r)))
       case Mux(cond, t, f) =>
         Disciplined(m, cond) && Canonical(m, cond) && Disciplined(m, t) && Disciplined(m, f)
       case Slice(inner, _, _) => Disciplined(m, inner)
       case Zext(inner, width) =>
         Disciplined(m, inner) && (width > Width(m, inner) ==> Canonical(m, inner))
       case Sext(inner, _) => Disciplined(m, inner)
       case Trunc(inner, _) => Disciplined(m, inner)
       case Cast(inner, _) => Disciplined(m, inner)
       case Concat(parts) =>
         && (forall i | 0 <= i < |parts| :: Disciplined(m, parts[i]))
         && (forall i | 1 <= i < |parts| :: Canonical(m, parts[i]))
       case MemRead(_, addr) =>
         Disciplined(m, addr) && Canonical(m, addr) && Width(m, addr) <= 64
  }

  /** The simulator's word, cut to the expression's width, is its meaning; and
      a canonical expression needs no cutting. */
  predicate Agrees(m: Module, st: Store, e: Expr)
  {
    && Low(Eval(m, st, e), Width(m, e)) == Meaning(m, st, e)
    && (Canonical(m, e) ==> Eval(m, st, e) == Meaning(m, st, e))
  }

  predicate Unary(e: Expr) {
    e.Not? || e.Slice? || e.Zext? || e.Sext? || e.Trunc? || e.Cast?
  }

  predicate Binary(e: Expr) {
    e.Bits? || e.Arith? || e.Compare?
  }

  lemma {:induction false} EvalAgrees(m: Module, st: Store, e: Expr)
    requires WellTyped(m, e) && InRange(m, st) && Disciplined(m, e)
    ensures Agrees(m, st, e)
    decreases e
  {
    if Unary(e) {
      EvalAgrees(m, st, e.inner);
      UnaryAgrees(m, st, e);
    } else if Binary(e) {
      EvalAgrees(m, st, e.lhs);
      EvalAgrees(m, st, e.rhs);
      BinaryAgrees(m, st, e);
    } else if e.Mux? {
      EvalAgrees(m, st, e.cond);
      EvalAgrees(m, st, e.thenExpr);
      EvalAgrees(m, st, e.elseExpr);
      MuxAgrees(m, st, e);
    } else if e.Concat? {
      PartsAgree(m, st, e.parts);
    } else if e.MemRead? {
      EvalAgrees(m, st, e.addr);
      MemReadAgrees(m, st, e);
    } else {
      LeafAgrees(m, st, e);
    }
  }

  lemma LeafAgrees(m: Module, st: Store, e: Expr)
    requires e.Lit? || e.Ref?
    requires WellTyped(m, e) && InRange(m, st) && Disciplined(m, e)
    ensures Agrees(m, st, e)
  {
    if e.Lit? {
      LowLow(e.value, e.ty.width, BITS);
      LowLow(e.value, e.ty.width, e.ty.width);
    } else {
      LowSmall(Get(st.values, e.signal), Width(m, e));
    }
  }

  lemma MemReadAgrees(m: Module, st: Store, e: Expr)
    requires e.MemRead? && WellTyped(m, e) && InRange(m, st) && Disciplined(m, e)
    requires Agrees(m, st, e.addr)
    ensures Agrees(m, st, e)
  {
    AddressSmall(Eval(m, st, e.addr), Width(m, e.addr));
    LowSmall(Eval(m, st, e), Width(m, e));
  }

  lemma UnaryAgrees(m: Module, st: Store, e: Expr)
    requires Unary(e) && WellTyped(m, e) && InRange(m, st) && Disciplined(m, e)
    requires Agrees(m, st, e.inner)
    ensures Agrees(m, st, e)
  {
    match e
    case Not(_) => NotAgrees(m, st, e);
    case Trunc(_, _) => TruncAgrees(m, st, e);
    case Cast(_, _) => CastAgrees(m, st, e);
    case Slice(_, _, _) => SliceAgrees(m, st, e);
    case Zext(_, _) => ZextAgrees(m, st, e);
    case Sext(_, _) => SextAgrees(m, st, e);
  }

  /** What a complement evaluates to and what it means. */
  lemma NotOf(m: Module, st: Store, e: Expr)
    ensures TypeOf(m, Not(e)) == TypeOf(m, e)
    ensures Eval(m, st, Not(e)) == NotWord(Eval(m, st, e))
    ensures Meaning(m, st, Not(e)) == Low(-1 - Meaning(m, st, e), Width(m, e))
  {
  }

  lemma NotAgrees(m: Module, st: Store, e: Expr)
    requires e.Not? && WellTyped(m, e) && Disciplined(m, e) && Agrees(m, st, e.inner)
    ensures Agrees(m, st, e)
  {
    var x, a, w := Eval(m, st, e.inner), Meaning(m, st, e.inner), Width(m, e.inner);
    NotOf(m, st, e.inner);
    ComplementLow(x, a, w);
    assert Canonical(m, e) ==> w >= BITS;
  }

  lemma ComplementLow(x: Word, a: nat, w: nat)
    requires Low(x, w) == a && w <= BITS
    ensures Low(NotWord(x), w) == Low(-1 - a, w)
    ensures w == BITS ==> NotWord(x) == Low(-1 - a, w)
  {
    NotLow(x, w);
    NotNumber(a, w);
    LowSmall(NotWord(x), BITS);
  }

  lemma TruncAgrees(m: Module, st: Store, e: Expr)
    requires e.Trunc? && WellTyped(m, e) && Agrees(m, st, e.inner)
    ensures Agrees(m, st, e)
  {
    LowLow(Eval(m, st, e.inner), e.width, Width(m, e.inner));
    LowLow(Eval(m, st, e.inner), e.width, e.width);
  }

  lemma CastAgrees(m: Module, st: Store, e: Expr)
    requires e.Cast? && WellTyped(m, e) && Agrees(m, st, e.inner)
    ensures Agrees(m, st, e)
  {
  }

  lemma BinaryAgrees(m: Module, st: Store, e: Expr)
    requires Binary(e) && WellTyped(m, e) && InRange(m, st) && Disciplined(m, e)
    requires Agrees(m, st, e.lhs) && Agrees(m, st, e.rhs)
    ensures Agrees(m, st, e)
  {
    match e
    case Bits(op, l, r) => BitsAgree(op, Eval(m, st, l), Eval(m, st, r), Width(m, e));
    case Arith(op, l, r) => ArithAgree(op, Eval(m, st, l), Eval(m, st, r), Width(m, e));
    case Compare(_, _, _) => CompareAgrees(m, st, e);
  }

  lemma CompareAgrees(m: Module, st: Store, e: Expr)
    requires e.Compare? && WellTyped(m, e) && InRange(m, st) && Disciplined(m, e)
    requires Agrees(m, st, e.lhs) && Agrees(m, st, e.rhs)
    ensures Agrees(m, st, e)
  {
    FlagSmall(Eval(m, st, e));
  }

  lemma MuxAgrees(m: Module, st: Store, e: Expr)
    requires e.Mux? && WellTyped(m, e) && InRange(m, st) && Disciplined(m, e)
    requires Agrees(m, st, e.cond) && Agrees(m, st, e.thenExpr) && Agrees(m, st, e.elseExpr)
    ensures Agrees(m, st, e)
  {
    assert Width(m, e.cond) == 1;
    assert Pow2(1) == 2;
  }

  lemma SliceAgrees(m: Module, st: Store, e: Expr)
    requires e.Slice? && WellTyped(m, e) && InRange(m, st) && Disciplined(m, e)
    requires Agrees(m, st, e.inner)
    ensures Agrees(m, st, e)
  {
    SliceAgree(Eval(m, st, e.inner), e.lsb, e.width, Width(m, e.inner));
    LowLow(Meaning(m, st, e.inner) / Pow2(e.lsb), e.width, e.width);
  }

  lemma ZextAgrees(m: Module, st: Store, e: Expr)
    requires e.Zext? && WellTyped(m, e) && InRange(m, st) && Disciplined(m, e)
    requires Agrees(m, st, e.inner)
    ensures Agrees(m, st, e)
  {
    Pow2Mono(Width(m, e.inner), e.width);
    LowLow(Eval(m, st, e.inner), e.width, e.width);
    LowSmall(Meaning(m, st, e.inner), e.width);
  }

  lemma SextAgrees(m: Module, st: Store, e: Expr)
    requires e.Sext? && WellTyped(m, e) && InRange(m, st) && Disciplined(m, e)
    requires Agrees(m, st, e.inner)
    ensures Agrees(m, st, e)
  {
    var v := SignedValue(Eval(m, st, e.inner), Width(m, e.inner));
    LowLow(v, e.width, BITS);
    LowLow(v, e.width, e.width);
  }

  lemma NotNumber(a: nat, w: nat)
    requires a < Pow2(w)
    ensures Low(-1 - a, w) == Pow2(w) - 1 - a
  {
    DivModUnique(-1 - a, Pow2(w), -1, Pow2(w) - 1 - a);
  }

  lemma FlagSmall(x: Word)
    requires x < 2
    ensures Low(x, 1) == x
  {
    assert Pow2(1) == 2;
    LowSmall(x, 1);
  }

  lemma AddressSmall(x: Word, w: nat)
    requires x < Pow2(w) && w <= 64
    ensures Low(x, 64) == x
  {
    Pow2Mono(w, 64);
    LowSmall(x, 64);
  }

  lemma BitsAgree(op: BitOp, a: Word, b: Word, w: nat)
    requires w <= BITS
    ensures Low(BitsWord(op, a, b), w) == Bitwise(op, Low(a, w), Low(b, w))
    ensures op.AndOp? && (a < Pow2(w) || b < Pow2(w)) ==>
              BitsWord(op, a, b) == Bitwise(op, Low(a, w), Low(b, w))
    ensures a < Pow2(w) && b < Pow2(w) ==>
              BitsWord(op, a, b) == Bitwise(op, Low(a, w), Low(b, w))
  {
    BitwiseLow(op, a, b, w);
    if op.AndOp? && (a < Pow2(w) || b < Pow2(w)) {
      AndBound(a, b);
      LowSmall(Bitwise(op, a, b), w);
    }
    if a < Pow2(w) && b < Pow2(w) {
      LowSmall(a, w);
      LowSmall(b, w);
    }
  }

  lemma ArithAgree(op: ArithOp, a: Word, b: Word, w: nat)
    requires w <= BITS
    ensures Low(Wrap(ArithInt(op, a, b)), w) == Low(ArithInt(op, Low(a, w), Low(b, w)), w)
    ensures w == BITS ==> Wrap(ArithInt(op, a, b)) == Low(ArithInt(op, Low(a, w), Low(b, w)), w)
  {
    LowLow(ArithInt(op, a, b), w, BITS);
    var p := Pow2(w);
    match op
    case AddOp =>
      ModAdd(a, b, p);
    case SubOp =>
      ModSub(a, b, p);
    case MulOp =>
      ModMul(a, b, p);
  }

  /** A slice inside the width of a word only looks at the bits of that width. */
  lemma SliceAgree(x: Word, lsb: nat, width: nat, w: nat)
    requires lsb + width <= w
    ensures Low(ShiftRight(x, lsb), width) == Low(Low(x, w) / Pow2(lsb), width)
  {
    ShiftLow(x, lsb, w - lsb);
    assert lsb + (w - lsb) == w;
    LowLow(x / Pow2(lsb), width, w - lsb);
  }

  lemma ShiftLow(x: nat, s: nat, k: nat)
    ensures Low(x, s + k) / Pow2(s) == Low(x / Pow2(s), k)
  {
    Pow2Add(s, k);
    var p, q := Pow2(s), Pow2(k);
    var d := x / p;
    DivMod(x, p);
    DivMod(d, q);
    BesideLess(d % q, x % p, q, p);
    Regroup(d / q, d % q, q, p);
    DivModUnique(x, p * q, d / q, (d % q) * p + x % p);
    DivModUnique((d % q) * p + x % p, p, d % q, x % p);
  }

  lemma {:induction false} PartsAgree(m: Module, st: Store, parts: seq<Expr>)
    requires (forall i | 0 <= i < |parts| :: WellTyped(m, parts[i])) && InRange(m, st)
    requires PartsWidth(m, parts) <= BITS
    requires forall i | 0 <= i < |parts| :: Disciplined(m, parts[i])
    requires forall i | 1 <= i < |parts| :: Canonical(m, parts[i])
    ensures EvalParts(m, st, parts).1 == PartsWidth(m, parts)
    ensures Low(EvalParts(m, st, parts).0, PartsWidth(m, parts)) == MeaningParts(m, st, parts)
    ensures parts == [] || Canonical(m, parts[0]) ==>
              EvalParts(m, st, parts).0 == MeaningParts(m, st, parts)
    decreases parts
  {
    if parts != [] {
      var rest := parts[1..];
      EvalAgrees(m, st, parts[0]);
      if rest != [] {
        assert rest[0] == parts[1];
      }
      PartsAgree(m, st, rest);
      ConcatStep(MeaningParts(m, st, rest), Eval(m, st, parts[0]),
                 PartsWidth(m, rest), Width(m, parts[0]));
    }
  }

  /** One step of the concatenation loop. */
  lemma ConcatStep(low: Word, high: Word, s: nat, w: nat)
    requires low < Pow2(s) && s + w <= BITS
    ensures Low(BitsWord(OrOp, low, ShiftLeft(high, s)), w + s) == Low(high, w) * Pow2(s) + low
    ensures high < Pow2(w) ==>
              BitsWord(OrOp, low, ShiftLeft(high, s)) == high * Pow2(s) + low
  {
    var kept := Low(high, BITS - s);
    ShiftLeftKeeps(high, s, BITS - s);
    assert s + (BITS - s) == BITS;
    OrShifted(low, kept, s);
    var r := BitsWord(OrOp, low, ShiftLeft(high, s));
    assert r == kept * Pow2(s) + low;
    LowBeside(kept, low, w, s);
    LowLow(high, w, BITS - s);
    if high < Pow2(w) {
      Pow2Mono(w, BITS - s);
      LowSmall(high, BITS - s);
    }
  }

  lemma ShiftLeftKeeps(x: nat, s: nat, k: nat)
    ensures Low(x * Pow2(s), s + k) == Low(x, k) * Pow2(s)
  {
    Pow2Add(s, k);
    var p, q := Pow2(s), Pow2(k);
    DivMod(x, q);
    BesideLess(x % q, 0, q, p);
    Regroup(x / q, x % q, q, p);
    DivModUnique(x * p, p * q, x / q, (x % q) * p);
  }

  lemma LowBeside(high: nat, low: nat, w: nat, s: nat)
    requires low < Pow2(s)
    ensures Low(high * Pow2(s) + low, w + s) == Low(high, w) * Pow2(s) + low
  {
    Pow2Add(w, s);
    var p, q := Pow2(s), Pow2(w);
    assert Pow2(w + s) == p * q;
    DivMod(high, q);
    BesideLess(high % q, low, q, p);
    Regroup(high / q, high % q, q, p);
    DivModUnique(high * p + low, p * q, high / q, (high % q) * p + low);
  }

  // ------------------------------------------ exactly where it goes wrong

  lemma {:induction false} NotIsHigh(x: Word, w: nat)
    requires x < Pow2(w) && w < BITS
    ensures NotWord(x) >= Pow2(w)
  {
    Pow2Mono(w + 1, BITS);
    assert Pow2(w + 1) == 2 * Pow2(w);
  }

  /** A mux whose condition is a complement always takes its first branch, so it
      agrees with its meaning exactly when that branch is the intended one or
      the branches are equal. */
  lemma MuxOfNot(m: Module, st: Store, c: Expr, t: Expr, f: Expr)
    requires WellTyped(m, Mux(Not(c), t, f)) && InRange(m, st)
    requires Disciplined(m, c) && Disciplined(m, t) && Disciplined(m, f)
    requires Canonical(m, c) && Canonical(m, t) && Canonical(m, f)
    ensures Eval(m, st, Mux(Not(c), t, f)) == Eval(m, st, t)
    ensures Eval(m, st, Mux(Not(c), t, f)) == Meaning(m, st, Mux(Not(c), t, f))
            <==> Meaning(m, st, c) == 0 || Meaning(m, st, t) == Meaning(m, st, f)
  {
    assert TypeOf(m, Not(c)) == TypeOf(m, c);
    NotBit(m, st, c);
    EvalAgrees(m, st, t);
    EvalAgrees(m, st, f);
    assert Eval(m, st, Not(c)) != 0;
    assert Meaning(m, st, Not(c)) == 1 - Meaning(m, st, c);
  }

  lemma NotBit(m: Module, st: Store, c: Expr)
    requires WellTyped(m, c) && TypeOf(m, c) == Some(UInt(1)) && InRange(m, st)
    requires Disciplined(m, c) && Canonical(m, c)
    ensures Meaning(m, st, c) < 2
    ensures Eval(m, st, Not(c)) >= 2
    ensures Meaning(m, st, Not(c)) == 1 - Meaning(m, st, c)
  {
    EvalAgrees(m, st, c);
    NotOf(m, st, c);
    OneBitNot(Eval(m, st, c), Meaning(m, st, c));
  }

  lemma OneBitNot(x: Word, a: nat)
    requires Low(x, 1) == a && x == a
    ensures a < 2 && NotWord(x) >= 2 && Low(-1 - a, 1) == 1 - a
  {
    assert Pow2(1) == 2;
    NotIsHigh(x, 1);
    NotNumber(a, 1);
  }

  /** Comparing a complement with a canonical operand below the word size never
      finds them equal: right exactly when the two really differ. */
  lemma EqualToNot(m: Module, st: Store, l: Expr, r: Expr)
    requires WellTyped(m, EqExpr(Not(l), r)) && InRange(m, st)
    requires Disciplined(m, l) && Canonical(m, l) && Disciplined(m, r) && Canonical(m, r)
    requires Width(m, l) < BITS
    ensures Eval(m, st, EqExpr(Not(l), r)) == 0
    ensures Eval(m, st, EqExpr(Not(l), r)) == Meaning(m, st, EqExpr(Not(l), r))
            <==> Meaning(m, st, Not(l)) != Meaning(m, st, r)
  {
    assert TypeOf(m, Not(l)) == TypeOf(m, l);
    EvalAgrees(m, st, l);
    EvalAgrees(m, st, r);
    NotIsHigh(Eval(m, st, l), Width(m, l));
  }

  /** Widening a complement keeps its dirty upper bits: right exactly when the
      target is no wider than the operand. */
  lemma WidenedNot(m: Module, st: Store, e: Expr, width: nat)
    requires WellTyped(m, Zext(Not(e), width)) && InRange(m, st)
    requires Disciplined(m, e) && Canonical(m, e) && width <= BITS
    ensures Eval(m, st, Zext(Not(e), width)) == Meaning(m, st, Zext(Not(e), width))
            <==> width == Width(m, e)
  {
    WidenedTypes(m, e, width);
    WidenedSides(m, st, e, width);
    CanonicalMeaning(m, st, e);
    SidesMeet(Eval(m, st, Zext(Not(e), width)), Meaning(m, st, Zext(Not(e), width)),
              Eval(m, st, e), Width(m, e), width);
  }

  lemma SidesMeet(z: Word, mz: int, x: Word, w: nat, width: nat)
    requires z == Masked(NotWord(x), width) && mz == Low(-1 - x, w) && x < Pow2(w) && w <= width <= BITS
    ensures z == mz <==> width == w
  {
    ComplementWidened(x, w, width);
  }

  lemma WidenedSides(m: Module, st: Store, e: Expr, width: nat)
    ensures Eval(m, st, Zext(Not(e), width)) == Masked(NotWord(Eval(m, st, e)), width)
    ensures Meaning(m, st, Zext(Not(e), width)) == Low(-1 - Meaning(m, st, e), Width(m, e))
  {
    NotOf(m, st, e);
    ZextOf(m, st, Not(e), width);
  }

  lemma CanonicalMeaning(m: Module, st: Store, e: Expr)
    requires WellTyped(m, e) && Disciplined(m, e) && Canonical(m, e) && InRange(m, st)
    ensures Eval(m, st, e) == Meaning(m, st, e) < Pow2(Width(m, e))
  {
    EvalAgrees(m, st, e);
  }

  lemma WidenedTypes(m: Module, e: Expr, width: nat)
    requires WellTyped(m, Zext(Not(e), width))
    ensures WellTyped(m, e) && Width(m, e) <= width
  {
    assert WellTyped(m, Not(e));
    assert TypeOf(m, Not(e)) == TypeOf(m, e);
  }

  lemma ZextOf(m: Module, st: Store, e: Expr, width: nat)
    ensures Eval(m, st, Zext(e, width)) == Masked(Eval(m, st, e), width)
    ensures Meaning(m, st, Zext(e, width)) == Meaning(m, st, e)
  {
  }

  lemma ComplementWidened(x: Word, w: nat, width: nat)
    requires x < Pow2(w) && w <= width <= BITS
    ensures Masked(NotWord(x), width) == Low(-1 - x, w) <==> width == w
  {
    NotLow(x, width);
    NotNumber(x, w);
    LowSmall(x, w);
    Pow2Mono(w, width);
    LowSmall(x, width);
    if w < width {
      Pow2StrictMono(w, width);
    }
  }

  function OneInput(): Module {
    Module(0, [SignalInfo(UInt(1), Input)], [], [], [], [])
  }

  lemma BitExact(m: Module, e: Expr)
    requires e == Ref(Signal(0, 0)) || e == LitU(0, 1) || e == LitU(1, 1)
    requires m == OneInput()
    ensures WellTyped(m, e) && TypeOf(m, e) == Some(UInt(1)) && Disciplined(m, e) && Canonical(m, e)
  {
    assert Pow2(1) == 2;
  }

  /** A one-bit module on which the mux goes wrong. */
  lemma MuxOfNotWitness()
    ensures
      var a := Signal(0, 0);
      var st := Store(map[a := 1], map[]);
      var e := Mux(Not(Ref(a)), LitU(1, 1), LitU(0, 1));
      && WellTyped(OneInput(), e) && InRange(OneInput(), st)
      && Eval(OneInput(), st, e) == 1 && Meaning(OneInput(), st, e) == 0
  {
    var m, a := OneInput(), Signal(0, 0);
    assert Pow2(1) == 2;
    Pow2Mono(1, BITS);
    var st := Store(map[a := 1], map[]);
    BitExact(m, Ref(a));
    BitExact(m, LitU(1, 1));
    BitExact(m, LitU(0, 1));
    NotOf(m, st, Ref(a));
    MuxTyped(m, Not(Ref(a)), LitU(1, 1), LitU(0, 1));
    MuxOfNot(m, st, Ref(a), LitU(1, 1), LitU(0, 1));
    BitMeaning(m, st, a);
  }

  lemma MuxTyped(m: Module, c: Expr, t: Expr, f: Expr)
    requires WellTyped(m, c) && TypeOf(m, c) == Some(UInt(1))
    requires WellTyped(m, t) && WellTyped(m, f) && TypeOf(m, t) == TypeOf(m, f)
    ensures WellTyped(m, Mux(c, t, f))
  {
  }

  lemma BitMeaning(m: Module, st: Store, a: Signal)
    requires m == OneInput() && a == Signal(0, 0) && Get(st.values, a) == 1 && InRange(m, st)
    ensures Meaning(m, st, Ref(a)) == 1
    ensures Meaning(m, st, LitU(1, 1)) == 1 == Eval(m, st, LitU(1, 1)) && Meaning(m, st, LitU(0, 1)) == 0
    ensures Meaning(m, st, Mux(Not(Ref(a)), LitU(1, 1), LitU(0, 1))) == 0
  {
    LowSmall(1, 1);
    LowSmall(0, 1);
    BitExact(m, LitU(1, 1));
    EvalAgrees(m, st, LitU(1, 1));
    NotBitMeaning(m, st, a);
  }

  lemma NotBitMeaning(m: Module, st: Store, a: Signal)
    requires m == OneInput() && a == Signal(0, 0) && Get(st.values, a) == 1 && InRange(m, st)
    ensures Meaning(m, st, Not(Ref(a))) == 0
  {
    BitExact(m, Ref(a));
    NotBit(m, st, Ref(a));
  }

  // ------------------------------------- equality and widening at an input

  /** The complement of a bit that is 0. */
  lemma NotZero(st: Store, a: Signal)
    requires a == Signal(0, 0) && Get(st.values, a) == 0 && InRange(OneInput(), st)
    ensures WellTyped(OneInput(), Not(Ref(a))) && TypeOf(OneInput(), Not(Ref(a))) == Some(UInt(1))
    ensures Meaning(OneInput(), st, Not(Ref(a))) == 1
    ensures Eval(OneInput(), st, Not(Ref(a))) == NotWord(0)
  {
    BitExact(OneInput(), Ref(a));
    NotOf(OneInput(), st, Ref(a));
    NotBit(OneInput(), st, Ref(a));
    EvalAgrees(OneInput(), st, Ref(a));
  }

  lemma EqMeans(m: Module, st: Store, l: Expr, r: Expr)
    requires WellTyped(m, l) && WellTyped(m, r) && TypeOf(m, l) == TypeOf(m, r)
    requires Meaning(m, st, l) == Meaning(m, st, r)
    ensures WellTyped(m, EqExpr(l, r)) && Meaning(m, st, EqExpr(l, r)) == 1
  {
  }

  lemma ZeroInRange()
    ensures InRange(OneInput(), Store(map[Signal(0, 0) := 0], map[]))
  {
  }

  /** A one-bit module on which equality goes wrong. */
  lemma EqualToNotWitness()
    ensures
      var a := Signal(0, 0);
      var st := Store(map[a := 0], map[]);
      var e := EqExpr(Not(Ref(a)), LitU(1, 1));
      && WellTyped(OneInput(), e) && InRange(OneInput(), st)
      && Eval(OneInput(), st, e) == 0 && Meaning(OneInput(), st, e) == 1
  {
    var m, a := OneInput(), Signal(0, 0);
    var st := Store(map[a := 0], map[]);
    ZeroInRange();
    NotZero(st, a);
    BitExact(m, Ref(a));
    BitExact(m, LitU(1, 1));
    LowSmall(1, 1);
    EqMeans(m, st, Not(Ref(a)), LitU(1, 1));
    EqualToNot(m, st, Ref(a), LitU(1, 1));
  }

  /** The same module, where a widened complement goes wrong. */
  lemma WidenedNotWitness()
    ensures
      var a := Signal(0, 0);
      var st := Store(map[a := 0], map[]);
      var e := Zext(Not(Ref(a)), 2);
      && WellTyped(OneInput(), e) && InRange(OneInput(), st)
      && Eval(OneInput(), st, e) == 3 && Meaning(OneInput(), st, e) == 1
  {
    var m, a := OneInput(), Signal(0, 0);
    var st := Store(map[a := 0], map[]);
    ZeroInRange();
    NotZero(st, a);
    ZextOf(m, st, Not(Ref(a)), 2);
    assert Pow2(2) == 4;
    LowSmall(0, 2);
    NotLow(0, 2);
  }
}
