/** Every expression the ready/valid generators emit is well typed and within
    the fragment on which the simulator is exact. */
module Emitted {
  import opened Words
  import opened Rtl
  import opened Semantics
  import opened Agreement
  import opened ReadyValid
  import opened FifoControl
  import Bundles

  /** Well typed, of type `ty`, and evaluated exactly on its width. */
  predicate Exact(m: Module, e: Expr, ty: BitType) {
    WellTyped(m, e) && TypeOf(m, e) == Some(ty) && Disciplined(m, e)
  }

  /** A one-bit expression that may be looked at as a whole word. */
  predicate Condition(m: Module, e: Expr) {
    Exact(m, e, UInt(1)) && Canonical(m, e)
  }

  /** Whatever the signals hold, the value assigned from an exact expression is
      its meaning on its own width. */
  lemma ExactMeans(m: Module, st: Store, e: Expr, ty: BitType)
    requires Exact(m, e, ty) && InRange(m, st)
    ensures Masked(Eval(m, st, e), ty.width) == Meaning(m, st, e)
  {
    EvalAgrees(m, st, e);
  }

  lemma RefExact(m: Module, x: Signal, ty: BitType)
    requires SignalType(m, x) == Some(ty) && ty.width <= BITS
    ensures Exact(m, Ref(x), ty) && Canonical(m, Ref(x))
  {
  }

  lemma LitExact(m: Module, v: nat, w: nat)
    requires 0 < w <= BITS && v < Pow2(w)
    ensures Exact(m, LitU(v, w), UInt(w)) && Canonical(m, LitU(v, w))
  {
  }

  lemma CompareExact(m: Module, op: CompareOp, x: Signal, v: nat, w: nat)
    requires op != LtOp && SignalType(m, x) == Some(UInt(w)) && 0 < w <= BITS && v < Pow2(w)
    ensures Condition(m, Compare(op, Ref(x), LitU(v, w)))
  {
    RefExact(m, x, UInt(w));
    LitExact(m, v, w);
  }

  lemma MuxExact(m: Module, c: Expr, t: Expr, f: Expr, ty: BitType)
    requires Condition(m, c) && Exact(m, t, ty) && Exact(m, f, ty)
    ensures Exact(m, Mux(c, t, f), ty)
  {
  }

  lemma BitsExact(m: Module, op: BitOp, l: Expr, r: Expr)
    requires Exact(m, l, UInt(1)) && Exact(m, r, UInt(1))
    ensures Exact(m, Bits(op, l, r), UInt(1))
    ensures op.AndOp? && (Canonical(m, l) || Canonical(m, r)) ==> Condition(m, Bits(op, l, r))
    ensures Canonical(m, l) && Canonical(m, r) ==> Condition(m, Bits(op, l, r))
  {
  }

  lemma NotExact(m: Module, e: Expr)
    requires Exact(m, e, UInt(1))
    ensures Exact(m, Not(e), UInt(1))
  {
    assert TypeOf(m, Not(e)) == TypeOf(m, e);
  }

  lemma CountExact(m: Module, op: ArithOp, x: Signal, w: nat)
    requires SignalType(m, x) == Some(UInt(w)) && 0 < w <= BITS
    ensures Exact(m, Arith(op, Ref(x), LitU(1, w)), UInt(w))
  {
    Pow2StrictMono(0, w);
    RefExact(m, x, UInt(w));
    LitExact(m, 1, w);
  }

  // ------------------------------------------------------------ FIFO control

  lemma FireExact(m: Module, c: Control, fields: seq<BitType>)
    requires HasControl(m, c, fields)
    ensures Condition(m, c.NotFull()) && Condition(m, c.NonEmpty())
    ensures Condition(m, c.WriteFire()) && Condition(m, c.ReadFire())
  {
    Widths(m, c, fields);
    CompareExact(m, NeOp, c.count, c.depth, c.CountWidth());
    CompareExact(m, NeOp, c.count, 0, c.CountWidth());
    RefExact(m, c.input.valid, UInt(1));
    RefExact(m, c.output.ready, UInt(1));
    BitsExact(m, AndOp, Ref(c.input.valid), c.NotFull());
    BitsExact(m, AndOp, c.NonEmpty(), Ref(c.output.ready));
  }

  lemma CountNextExact(m: Module, c: Control, fields: seq<BitType>)
    requires HasControl(m, c, fields)
    ensures Exact(m, c.CountNext(), UInt(c.CountWidth()))
  {
    var w := c.CountWidth();
    Widths(m, c, fields);
    FireExact(m, c, fields);
    NotExact(m, c.ReadFire());
    NotExact(m, c.WriteFire());
    BitsExact(m, AndOp, c.WriteFire(), Not(c.ReadFire()));
    BitsExact(m, AndOp, c.ReadFire(), Not(c.WriteFire()));
    CountExact(m, AddOp, c.count, w);
    CountExact(m, SubOp, c.count, w);
    RefExact(m, c.count, UInt(w));
    var down := Mux(And(c.ReadFire(), Not(c.WriteFire())), Minus(Ref(c.count), LitU(1, w)), Ref(c.count));
    MuxExact(m, And(c.ReadFire(), Not(c.WriteFire())), Minus(Ref(c.count), LitU(1, w)), Ref(c.count), UInt(w));
    MuxExact(m, And(c.WriteFire(), Not(c.ReadFire())), Plus(Ref(c.count), LitU(1, w)), down, UInt(w));
  }

  lemma PtrNextExact(m: Module, c: Control, fields: seq<BitType>, fire: Expr, ptr: Signal)
    requires HasControl(m, c, fields) && Condition(m, fire)
    requires SignalType(m, ptr) == Some(UInt(c.PtrWidth()))
    ensures Exact(m, c.PtrNext(fire, ptr), UInt(c.PtrWidth()))
  {
    var w := c.PtrWidth();
    Widths(m, c, fields);
    CompareExact(m, EqOp, ptr, c.depth - 1, w);
    LitExact(m, 0, w);
    CountExact(m, AddOp, ptr, w);
    RefExact(m, ptr, UInt(w));
    MuxExact(m, EqExpr(Ref(ptr), LitU(c.depth - 1, w)), LitU(0, w), Plus(Ref(ptr), LitU(1, w)), UInt(w));
    MuxExact(m, fire, c.PtrIncrement(ptr), Ref(ptr), UInt(w));
  }

  /** Everything `emit_rv_fifo_common` emits. */
  lemma ControlExact(m: Module, c: Control, fields: seq<BitType>)
    requires HasControl(m, c, fields)
    ensures Condition(m, c.NotFull()) && Condition(m, c.NonEmpty()) && Condition(m, c.WriteFire())
    ensures Exact(m, c.CountNext(), UInt(c.CountWidth()))
    ensures Exact(m, c.PtrNext(c.WriteFire(), c.wptr), UInt(c.PtrWidth()))
    ensures Exact(m, c.PtrNext(c.ReadFire(), c.rptr), UInt(c.PtrWidth()))
  {
    FireExact(m, c, fields);
    CountNextExact(m, c, fields);
    PtrNextExact(m, c, fields, c.WriteFire(), c.wptr);
    PtrNextExact(m, c, fields, c.ReadFire(), c.rptr);
  }

  // ---------------------------------------------------------- register FIFO

  lemma {:induction false} EntryMuxExact(m: Module, selector: Signal, w: nat, entries: seq<Signal>, n: nat, ty: BitType)
    requires 0 < n <= |entries| && ty.width <= BITS
    requires SignalType(m, selector) == Some(UInt(w)) && 0 < w <= BITS && n <= Pow2(w)
    requires forall i | 0 <= i < n :: SignalType(m, entries[i]) == Some(ty)
    ensures Exact(m, EntryMux(selector, w, entries, n), ty)
  {
    RefExact(m, entries[n - 1], ty);
    if n > 1 {
      EntryMuxExact(m, selector, w, entries, n - 1, ty);
      CompareExact(m, EqOp, selector, n - 1, w);
      MuxExact(m, EqExpr(Ref(selector), LitU(n - 1, w)), Ref(entries[n - 1]),
               EntryMux(selector, w, entries, n - 1), ty);
    }
  }

  lemma DataNextExact(m: Module, f: FifoNet, k: nat, i: nat)
    requires HasFifo(m, f) && k < |f.fields| && f.fields[k].width <= BITS && i < f.c.depth
    ensures Exact(m, f.DataNext(k, i), f.fields[k])
  {
    var c, w := f.c, f.c.PtrWidth();
    Widths(m, c, f.fields);
    FireExact(m, c, f.fields);
    CompareExact(m, EqOp, c.wptr, i, w);
    BitsExact(m, AndOp, c.WriteFire(), EqExpr(Ref(c.wptr), LitU(i, w)));
    assert HasReg(m, f.data[k][i], f.fields[k], c.clock, c.reset, f.DataNext(k, i));
    RefExact(m, c.input.bits[k], f.fields[k]);
    RefExact(m, f.data[k][i], f.fields[k]);
    MuxExact(m, And(c.WriteFire(), EqExpr(Ref(c.wptr), LitU(i, w))),
             Ref(c.input.bits[k]), Ref(f.data[k][i]), f.fields[k]);
  }

  /** Everything `rv_fifo` emits for one payload field. */
  lemma FifoExact(m: Module, f: FifoNet, k: nat)
    requires HasFifo(m, f) && k < |f.fields| && f.fields[k].width <= BITS
    ensures forall i | 0 <= i < f.c.depth :: Exact(m, f.DataNext(k, i), f.fields[k])
    ensures Exact(m, EntryMux(f.c.rptr, f.c.PtrWidth(), f.data[k], f.c.depth), f.fields[k])
  {
    Widths(m, f.c, f.fields);
    forall i | 0 <= i < f.c.depth
      ensures Exact(m, f.DataNext(k, i), f.fields[k])
    {
      DataNextExact(m, f, k, i);
    }
    forall i | 0 <= i < f.c.depth
      ensures SignalType(m, f.data[k][i]) == Some(f.fields[k])
    {
      assert HasReg(m, f.data[k][i], f.fields[k], f.c.clock, f.c.reset, f.DataNext(k, i));
    }
    EntryMuxExact(m, f.c.rptr, f.c.PtrWidth(), f.data[k], f.c.depth, f.fields[k]);
  }

  // ------------------------------------------------------------ memory FIFO

  /** Everything `rv_mem_fifo` emits beside its control. */
  lemma MemFifoExact(m: Module, f: MemFifoNet)
    requires HasMemFifo(m, f) && forall k | 0 <= k < |f.fields| :: f.fields[k].width > 0
    ensures Exact(m, f.WriteData(), f.WordType())
    ensures Exact(m, MemRead(f.mem, Ref(f.c.rptr)), f.WordType())
    ensures forall k | 0 <= k < |f.fields| :: Exact(m, f.ReadField(k), f.fields[k])
  {
    WriteDataExact(m, f);
    Widths(m, f.c, f.fields);
    RefExact(m, f.c.rptr, UInt(f.c.PtrWidth()));
    forall k | 0 <= k < |f.fields|
      ensures Exact(m, f.ReadField(k), f.fields[k])
    {
      if f.packed {
        UnpackExact(m, f.readData, f.fields, k);
      } else {
        RefExact(m, f.readData, f.fields[0]);
      }
    }
  }

  lemma UnpackExact(m: Module, readData: Signal, fields: seq<BitType>, k: nat)
    requires k < |fields| && fields[k].width > 0 && PackedWidth(fields) <= BITS
    requires SignalType(m, readData) == Some(UInt(PackedWidth(fields)))
    ensures Exact(m, Unpack(readData, fields, k), fields[k])
  {
    Bundles.WidthSplit(fields, k);
    var slice := Slice(Ref(readData), PackedWidth(fields[k + 1..]), fields[k].width);
    SliceExact(m, readData, PackedWidth(fields), PackedWidth(fields[k + 1..]), fields[k].width);
    if fields[k].signedness.Signed? {
      CastExact(m, slice, fields[k].width);
    }
  }

  lemma SliceExact(m: Module, x: Signal, total: nat, lsb: nat, w: nat)
    requires SignalType(m, x) == Some(UInt(total)) && total <= BITS && 0 < w && lsb + w <= total
    ensures Exact(m, Slice(Ref(x), lsb, w), UInt(w))
  {
    RefExact(m, x, UInt(total));
  }

  lemma CastExact(m: Module, e: Expr, w: nat)
    requires Exact(m, e, UInt(w))
    ensures Exact(m, Cast(e, Signed), SInt(w))
  {
    assert TypeOf(m, Cast(e, Signed)) == Some(SInt(w));
  }

  lemma WriteDataExact(m: Module, f: MemFifoNet)
    requires HasMemFifo(m, f)
    ensures Exact(m, f.WriteData(), f.WordType())
  {
    if f.packed {
      PackedExact(m, f.c.input.bits, f.fields);
    }
  }

  lemma PackedExact(m: Module, signals: seq<Signal>, fields: seq<BitType>)
    requires |signals| == |fields|
    requires forall k | 0 <= k < |fields| :: SignalType(m, signals[k]) == Some(fields[k])
    requires |fields| > 0 && PackedWidth(fields) <= BITS
    ensures Exact(m, Concat(Refs(signals)), UInt(PackedWidth(fields)))
  {
    var parts := Refs(signals);
    PackedPartsWidth(m, signals, fields);
    forall k | 0 <= k < |parts|
      ensures WellTyped(m, parts[k]) && Disciplined(m, parts[k])
    {
      Bundles.WidthSplit(fields, k);
    }
  }

  lemma {:induction false} PackedPartsWidth(m: Module, signals: seq<Signal>, fields: seq<BitType>)
    requires |signals| == |fields|
    requires forall k | 0 <= k < |fields| :: SignalType(m, signals[k]) == Some(fields[k])
    ensures PartsWidth(m, Refs(signals)) == PackedWidth(fields)
  {
    if fields != [] {
      PackedPartsWidth(m, signals[1..], fields[1..]);
      assert Refs(signals)[1..] == Refs(signals[1..]);
    }
  }

  // ------------------------------------------------------------ skid buffer

  /** Everything `rv_skid_buffer` emits. */
  lemma SkidExact(m: Module, f: SkidNet)
    requires HasSkid(m, f)
    requires forall k | 0 <= k < |f.fields| :: f.fields[k].width <= BITS
    ensures Exact(m, f.FullNext(), UInt(1))
    ensures Exact(m, Or(Not(Ref(f.full)), Ref(f.output.ready)), UInt(1))
    ensures Exact(m, Or(Ref(f.full), Ref(f.input.valid)), UInt(1))
    ensures forall k | 0 <= k < |f.fields| ::
              Exact(m, f.HeldNext(k), f.fields[k]) && Exact(m, f.OutBits(k), f.fields[k])
  {
    var full, valid, ready := Ref(f.full), Ref(f.input.valid), Ref(f.output.ready);
    RefExact(m, f.full, UInt(1));
    RefExact(m, f.input.valid, UInt(1));
    RefExact(m, f.output.ready, UInt(1));
    NotExact(m, full);
    NotExact(m, ready);
    BitsExact(m, OrOp, Not(full), ready);
    BitsExact(m, OrOp, full, valid);
    BitsExact(m, AndOp, full, valid);
    MuxExact(m, ready, And(full, valid), Or(full, valid), UInt(1));
    BitsExact(m, AndOp, Not(full), Not(ready));
    BitsExact(m, AndOp, full, ready);
    BitsExact(m, OrOp, And(Not(full), Not(ready)), And(full, ready));
    BitsExact(m, AndOp, valid, Or(And(Not(full), Not(ready)), And(full, ready)));
    forall k | 0 <= k < |f.fields|
      ensures Exact(m, f.HeldNext(k), f.fields[k]) && Exact(m, f.OutBits(k), f.fields[k])
    {
      HeldExact(m, f, k);
    }
  }

  lemma HeldExact(m: Module, f: SkidNet, k: nat)
    requires HasSkid(m, f) && k < |f.fields| && f.fields[k].width <= BITS
    requires Condition(m, f.Load()) && Condition(m, Ref(f.full))
    ensures Exact(m, f.HeldNext(k), f.fields[k]) && Exact(m, f.OutBits(k), f.fields[k])
  {
    assert HasReg(m, f.held[k], f.fields[k], f.clock, f.reset, f.HeldNext(k));
    RefExact(m, f.input.bits[k], f.fields[k]);
    RefExact(m, f.held[k], f.fields[k]);
    MuxExact(m, f.Load(), Ref(f.input.bits[k]), Ref(f.held[k]), f.fields[k]);
    MuxExact(m, Ref(f.full), Ref(f.held[k]), Ref(f.input.bits[k]), f.fields[k]);
  }
}
