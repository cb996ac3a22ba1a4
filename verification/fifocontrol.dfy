/** The counters of the generated FIFOs, evaluated by the simulator. */
module FifoControl {
  import opened Words
  import opened Rtl
  import opened Semantics
  import opened Simulation
  import opened ReadyValid
  import opened Gates
  import opened Ring
  import opened Streams

  /** Every continuous assignment of the module holds. */
  predicate EquationsHold(m: Module, st: Store) {
    forall a | a in m.assignments && m.Owns(a.dst) ::
      Get(st.values, a.dst) == Masked(Eval(m, st, a.expr), m.WidthOf(a.dst))
  }

  lemma SignalRange(m: Module, st: Store, x: Signal, ty: BitType)
    requires InRange(m, st) && SignalType(m, x) == Some(ty)
    ensures Get(st.values, x) < Pow2(ty.width)
  {
  }

  lemma BitRange(m: Module, st: Store, x: Signal)
    requires InRange(m, st) && SignalType(m, x) == Some(UInt(1))
    ensures Get(st.values, x) < 2
  {
    assert Pow2(1) == 2;
    SignalRange(m, st, x, UInt(1));
  }

  function High(st: Store, x: Signal): bool {
    Get(st.values, x) != 0
  }

  /** A generated register after an edge. */
  lemma RegAfter(m: Module, st: Store, edges: ClockEdges, x: Signal, ty: BitType,
                 clock: Signal, reset: Signal, next: Expr)
    requires HasReg(m, x, ty, clock, reset, next)
    ensures Get(LatchStore(m, st, edges).values, x)
         == if !edges.Register(m.signals[x.id]) then Get(st.values, x)
            else if High(st, reset) then 0
            else Masked(Eval(m, st, next), ty.width)
  {
    EncodeZero(ty.width);
    LowSmall(0, ty.width);
    assert m.Handle(x.id) == x;
    if edges.Register(m.signals[x.id]) {
      assert x in Captured(m, st, edges);
    } else {
      assert x !in Captured(m, st, edges);
    }
  }

  function Count(st: Store, c: Control): nat { Get(st.values, c.count) }
  function Rptr(st: Store, c: Control): nat { Get(st.values, c.rptr) }
  function Wptr(st: Store, c: Control): nat { Get(st.values, c.wptr) }

  /** The pointers are inside the buffer, `count` slots apart. */
  predicate ControlInv(st: Store, c: Control) {
    && Count(st, c) <= c.depth && Rptr(st, c) < c.depth
    && Wptr(st, c) == Slot(Rptr(st, c), Count(st, c), c.depth)
  }

  predicate Puts(st: Store, c: Control) { High(st, c.input.valid) && Count(st, c) != c.depth }
  predicate Gets(st: Store, c: Control) { High(st, c.output.ready) && Count(st, c) != 0 }

  lemma Widths(m: Module, c: Control, fields: seq<BitType>)
    requires HasControl(m, c, fields)
    ensures 0 < c.PtrWidth() <= 64 && c.depth <= Pow2(c.PtrWidth())
    ensures 0 < c.CountWidth() <= 64 && c.depth < Pow2(c.CountWidth())
  {
    CeilLog2Fits(c.depth);
    CeilLog2Fits(c.depth + 1);
    CeilLog2Tight(c.depth);
    CeilLog2Tight(c.depth + 1);
  }

  lemma NotEqualBit(m: Module, st: Store, x: Signal, v: nat, w: nat)
    requires v < Pow2(w) && w <= BITS
    ensures Eval(m, st, NeExpr(Ref(x), LitU(v, w))) == Flag(Get(st.values, x) != v)
  {
    LitValue(m, st, v, w);
  }

  lemma StatusBits(m: Module, st: Store, c: Control, fields: seq<BitType>)
    requires HasControl(m, c, fields) && InRange(m, st)
    ensures Eval(m, st, c.NotFull()) == Flag(Count(st, c) != c.depth)
    ensures Eval(m, st, c.NonEmpty()) == Flag(Count(st, c) != 0)
  {
    Widths(m, c, fields);
    NotEqualBit(m, st, c.count, c.depth, c.CountWidth());
    NotEqualBit(m, st, c.count, 0, c.CountWidth());
  }

  lemma AndFlags(m: Module, st: Store, l: Expr, r: Expr, a: bool, b: bool)
    requires Eval(m, st, l) == Flag(a) && Eval(m, st, r) == Flag(b)
    ensures Eval(m, st, And(l, r)) == Flag(a && b)
  {
    AndBit(Flag(a), Flag(b));
  }

  lemma RefFlag(m: Module, st: Store, x: Signal)
    requires Get(st.values, x) < 2
    ensures Eval(m, st, Ref(x)) == Flag(Get(st.values, x) == 1)
  {
    FlagBit(Get(st.values, x));
  }

  lemma FireBits(m: Module, st: Store, c: Control, fields: seq<BitType>)
    requires HasControl(m, c, fields) && InRange(m, st)
    ensures Eval(m, st, c.WriteFire()) == Flag(Puts(st, c))
    ensures Eval(m, st, c.ReadFire()) == Flag(Gets(st, c))
  {
    StatusBits(m, st, c, fields);
    BitRange(m, st, c.input.valid);
    BitRange(m, st, c.output.ready);
    RefFlag(m, st, c.input.valid);
    RefFlag(m, st, c.output.ready);
    AndFlags(m, st, Ref(c.input.valid), c.NotFull(), High(st, c.input.valid), Count(st, c) != c.depth);
    AndFlags(m, st, c.NonEmpty(), Ref(c.output.ready), Count(st, c) != 0, High(st, c.output.ready));
  }

  lemma CountConditions(m: Module, st: Store, c: Control, fields: seq<BitType>)
    requires HasControl(m, c, fields) && InRange(m, st)
    ensures Eval(m, st, And(c.WriteFire(), Not(c.ReadFire()))) == Flag(Puts(st, c) && !Gets(st, c))
    ensures Eval(m, st, And(c.ReadFire(), Not(c.WriteFire()))) == Flag(Gets(st, c) && !Puts(st, c))
  {
    FireBits(m, st, c, fields);
    AndNotBit(Flag(Puts(st, c)), Flag(Gets(st, c)));
    AndNotBit(Flag(Gets(st, c)), Flag(Puts(st, c)));
  }

  lemma EvalMux(m: Module, st: Store, c: Expr, t: Expr, f: Expr, b: bool)
    requires Eval(m, st, c) == Flag(b)
    ensures Eval(m, st, Mux(c, t, f)) == if b then Eval(m, st, t) else Eval(m, st, f)
  {
  }

  lemma EvalUp(m: Module, st: Store, x: Signal, w: nat)
    requires 0 < w <= BITS
    ensures Eval(m, st, Plus(Ref(x), LitU(1, w))) == Wrap(Get(st.values, x) + 1)
    ensures Eval(m, st, Minus(Ref(x), LitU(1, w))) == Wrap(Get(st.values, x) - 1)
  {
    LitOne(m, st, w);
  }

  lemma CountDownWord(m: Module, st: Store, c: Control, fields: seq<BitType>, down: Expr)
    requires HasControl(m, c, fields) && InRange(m, st)
    requires Eval(m, st, down) == Wrap(Count(st, c) - 1)
    ensures Eval(m, st, Mux(And(c.ReadFire(), Not(c.WriteFire())), down, Ref(c.count)))
         == if Gets(st, c) && !Puts(st, c) then Wrap(Count(st, c) - 1) else Get(st.values, c.count)
  {
    CountConditions(m, st, c, fields);
    EvalMux(m, st, And(c.ReadFire(), Not(c.WriteFire())), down, Ref(c.count), Gets(st, c) && !Puts(st, c));
  }

  lemma CountUpWord(m: Module, st: Store, c: Control, fields: seq<BitType>, up: Expr, other: Expr)
    requires HasControl(m, c, fields) && InRange(m, st)
    ensures Eval(m, st, Mux(And(c.WriteFire(), Not(c.ReadFire())), up, other))
         == if Puts(st, c) && !Gets(st, c) then Eval(m, st, up) else Eval(m, st, other)
  {
    CountConditions(m, st, c, fields);
    EvalMux(m, st, And(c.WriteFire(), Not(c.ReadFire())), up, other, Puts(st, c) && !Gets(st, c));
  }

  lemma CountNextWord(m: Module, st: Store, c: Control, fields: seq<BitType>)
    requires HasControl(m, c, fields) && InRange(m, st)
    ensures Eval(m, st, c.CountNext())
         == if Puts(st, c) && !Gets(st, c) then Wrap(Count(st, c) + 1)
            else if Gets(st, c) && !Puts(st, c) then Wrap(Count(st, c) - 1)
            else Get(st.values, c.count)
  {
    Widths(m, c, fields);
    var w := c.CountWidth();
    var up, down := Plus(Ref(c.count), LitU(1, w)), Minus(Ref(c.count), LitU(1, w));
    EvalUp(m, st, c.count, w);
    CountDownWord(m, st, c, fields, down);
    CountUpWord(m, st, c, fields, up, Mux(And(c.ReadFire(), Not(c.WriteFire())), down, Ref(c.count)));
  }

  /** The count register never wraps and moves as the queue length does. */
  lemma CountWord(n: Word, w: nat, up: bool, down: bool)
    requires n < Pow2(w) && w <= BITS && !(up && down)
    requires up ==> n + 1 < Pow2(w)
    requires down ==> n > 0
    ensures Masked(if up then Wrap(n + 1) else if down then Wrap(n - 1) else n, w)
         == if up then n + 1 else if down then n - 1 else n
  {
    if up {
      CountUp(n, w);
    } else if down {
      CountDown(n, w);
    } else {
      MaskedSmall(n, w);
    }
  }

  lemma CountMasked(m: Module, st: Store, c: Control, fields: seq<BitType>, next: Word)
    requires HasControl(m, c, fields) && ControlInv(st, c)
    requires next
          == if Puts(st, c) && !Gets(st, c) then Wrap(Count(st, c) + 1)
             else if Gets(st, c) && !Puts(st, c) then Wrap(Count(st, c) - 1)
             else Get(st.values, c.count)
    ensures Masked(next, c.CountWidth()) == CountAfter(Count(st, c), Puts(st, c), Gets(st, c))
  {
    Widths(m, c, fields);
    CountBounds(st, c);
    CountWord(Get(st.values, c.count), c.CountWidth(),
              Puts(st, c) && !Gets(st, c), Gets(st, c) && !Puts(st, c));
  }

  lemma CountBounds(st: Store, c: Control)
    requires ControlInv(st, c)
    ensures Puts(st, c) ==> Count(st, c) + 1 <= c.depth
    ensures Gets(st, c) ==> Count(st, c) > 0
  {
  }

  lemma CountNextValue(m: Module, st: Store, c: Control, fields: seq<BitType>)
    requires HasControl(m, c, fields) && InRange(m, st) && ControlInv(st, c)
    ensures Masked(Eval(m, st, c.CountNext()), c.CountWidth())
         == CountAfter(Count(st, c), Puts(st, c), Gets(st, c))
  {
    CountNextWord(m, st, c, fields);
    CountMasked(m, st, c, fields, Eval(m, st, c.CountNext()));
  }

  lemma LitOne(m: Module, st: Store, w: nat)
    requires 0 < w <= BITS
    ensures Eval(m, st, LitU(1, w)) == 1
  {
    Pow2Mono(1, w);
    assert Pow2(1) == 2;
    LitValue(m, st, 1, w);
  }

  /** The pointer registers never wrap in their width but at the depth. */
  lemma PtrWord(p: nat, depth: nat, w: nat)
    requires p < depth <= Pow2(w) && w <= BITS
    ensures p < Pow2(BITS)
    ensures Masked(if p == depth - 1 then Encode(0, w) else Wrap(p + 1), w) == NextPtr(p, depth)
  {
    Pow2Mono(w, BITS);
    if p + 1 < depth {
      CountUp(p, w);
    } else {
      EncodeZero(w);
      MaskedSmall(Encode(0, w), w);
    }
  }

  lemma PtrMasked(m: Module, c: Control, fields: seq<BitType>, next: Word, fires: bool, p: Word)
    requires HasControl(m, c, fields) && p < c.depth
    requires next
          == if fires then (if p == c.depth - 1 then Encode(0, c.PtrWidth()) else Wrap(p + 1)) else p
    ensures Masked(next, c.PtrWidth()) == if fires then NextPtr(p, c.depth) else p
  {
    Widths(m, c, fields);
    PtrWord(p, c.depth, c.PtrWidth());
    MaskedSmall(p, c.PtrWidth());
  }

  lemma PtrNextValue(m: Module, st: Store, c: Control, fields: seq<BitType>,
                     fire: Expr, fires: bool, ptr: Signal)
    requires HasControl(m, c, fields) && InRange(m, st)
    requires Eval(m, st, fire) == Flag(fires)
    requires Get(st.values, ptr) < c.depth
    ensures Masked(Eval(m, st, c.PtrNext(fire, ptr)), c.PtrWidth())
         == if fires then NextPtr(Get(st.values, ptr), c.depth) else Get(st.values, ptr)
  {
    PtrIncrementWord(m, st, c, fields, ptr);
    EvalMux(m, st, fire, c.PtrIncrement(ptr), Ref(ptr), fires);
    PtrMasked(m, c, fields, Eval(m, st, c.PtrNext(fire, ptr)), fires, Get(st.values, ptr));
  }

  lemma PtrIncrementWord(m: Module, st: Store, c: Control, fields: seq<BitType>, ptr: Signal)
    requires HasControl(m, c, fields)
    ensures Eval(m, st, c.PtrIncrement(ptr))
         == if Get(st.values, ptr) == c.depth - 1 then Encode(0, c.PtrWidth())
            else Wrap(Get(st.values, ptr) + 1)
  {
    Widths(m, c, fields);
    var w, p := c.PtrWidth(), Get(st.values, ptr);
    var up, last := Plus(Ref(ptr), LitU(1, w)), EqExpr(Ref(ptr), LitU(c.depth - 1, w));
    EvalUp(m, st, ptr, w);
    EvalEq(m, st, ptr, c.depth - 1, w);
    EvalMux(m, st, last, LitU(0, w), up, p == c.depth - 1);
  }

  lemma EvalEq(m: Module, st: Store, x: Signal, v: nat, w: nat)
    requires v < Pow2(w) && w <= BITS
    ensures Eval(m, st, EqExpr(Ref(x), LitU(v, w))) == Flag(Get(st.values, x) == v)
  {
    LitValue(m, st, v, w);
  }

  /** The three counters after an active edge. */
  lemma ControlStep(m: Module, st: Store, edges: ClockEdges, c: Control, fields: seq<BitType>)
    requires HasControl(m, c, fields) && InRange(m, st) && ControlInv(st, c)
    requires edges.Register(m.signals[c.count.id])
    ensures
      var st' := LatchStore(m, st, edges);
      if High(st, c.reset) then Count(st', c) == Rptr(st', c) == Wptr(st', c) == 0
      else
        && Count(st', c) == CountAfter(Count(st, c), Puts(st, c), Gets(st, c))
        && Rptr(st', c) == (if Gets(st, c) then NextPtr(Rptr(st, c), c.depth) else Rptr(st, c))
        && Wptr(st', c) == (if Puts(st, c) then NextPtr(Wptr(st, c), c.depth) else Wptr(st, c))
  {
    var cw, pw := c.CountWidth(), c.PtrWidth();
    RegAfter(m, st, edges, c.count, UInt(cw), c.clock, c.reset, c.CountNext());
    RegAfter(m, st, edges, c.wptr, UInt(pw), c.clock, c.reset, c.PtrNext(c.WriteFire(), c.wptr));
    RegAfter(m, st, edges, c.rptr, UInt(pw), c.clock, c.reset, c.PtrNext(c.ReadFire(), c.rptr));
    FireBits(m, st, c, fields);
    CountNextValue(m, st, c, fields);
    PtrNextValue(m, st, c, fields, c.WriteFire(), Puts(st, c), c.wptr);
    PtrNextValue(m, st, c, fields, c.ReadFire(), Gets(st, c), c.rptr);
  }

  /** The counters hold still on an edge of other clocks. */
  lemma ControlIdle(m: Module, st: Store, edges: ClockEdges, c: Control, fields: seq<BitType>)
    requires HasControl(m, c, fields)
    requires !edges.Register(m.signals[c.count.id])
    ensures
      var st' := LatchStore(m, st, edges);
      Count(st', c) == Count(st, c) && Rptr(st', c) == Rptr(st, c) && Wptr(st', c) == Wptr(st, c)
  {
    var cw, pw := c.CountWidth(), c.PtrWidth();
    RegAfter(m, st, edges, c.count, UInt(cw), c.clock, c.reset, c.CountNext());
    RegAfter(m, st, edges, c.wptr, UInt(pw), c.clock, c.reset, c.PtrNext(c.WriteFire(), c.wptr));
    RegAfter(m, st, edges, c.rptr, UInt(pw), c.clock, c.reset, c.PtrNext(c.ReadFire(), c.rptr));
  }

  /** The handshake wires of a settled FIFO. */
  lemma ControlWires(m: Module, st: Store, c: Control, fields: seq<BitType>)
    requires HasControl(m, c, fields) && InRange(m, st) && EquationsHold(m, st)
    ensures High(st, c.input.ready) <==> Count(st, c) != c.depth
    ensures High(st, c.output.valid) <==> Count(st, c) != 0
  {
    StatusBits(m, st, c, fields);
    assert Pow2(1) == 2;
    MaskedSmall(Flag(Count(st, c) != c.depth), 1);
    MaskedSmall(Flag(Count(st, c) != 0), 1);
    var a, b := Assignment(c.input.ready, c.NotFull()), Assignment(c.output.valid, c.NonEmpty());
    assert a in m.assignments && b in m.assignments;
  }

  /** What `ControlStep` says about an edge without reset. */
  predicate Moves(st: Store, st': Store, c: Control)
    requires ControlInv(st, c)
  {
    && Count(st', c) == CountAfter(Count(st, c), Puts(st, c), Gets(st, c))
    && Rptr(st', c) == (if Gets(st, c) then NextPtr(Rptr(st, c), c.depth) else Rptr(st, c))
    && Wptr(st', c) == (if Puts(st, c) then NextPtr(Wptr(st, c), c.depth) else Wptr(st, c))
  }

  /** Moving counters over slots that take the accepted item is a queue step. */
  lemma RingCycle(st: Store, st': Store, c: Control, slots: seq<Item>, slots': seq<Item>, cyc: Cycle)
    requires ControlInv(st, c) && Moves(st, st', c) && |slots| == c.depth
    requires slots' == if Puts(st, c) then slots[Wptr(st, c) := cyc.inItem] else slots
    requires !cyc.reset
    requires cyc.Accepts() <==> Puts(st, c)
    requires cyc.Delivers() <==> Gets(st, c)
    ensures ControlInv(st', c)
    ensures Queue(slots', Rptr(st', c), Count(st', c))
         == QueueStep(Queue(slots, Rptr(st, c), Count(st, c)), cyc)
  {
    Step(slots, Rptr(st, c), Wptr(st, c), Count(st, c), Puts(st, c), Gets(st, c), cyc.inItem,
         slots', Rptr(st', c), Wptr(st', c));
  }
}
