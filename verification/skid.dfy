/** The netlists emitted by `rv_skid_buffer` and `rv_connect`, run by the
    simulator. */
module SkidBuffer {
  import opened Words
  import opened Rtl
  import opened Semantics
  import opened Simulation
  import opened ReadyValid
  import opened Gates
  import opened FifoControl
  import opened RegisterFifo
  import opened Streams

  function HeldItem(st: Store, f: SkidNet): (item: Item)
    ensures |item| == |f.held|
    ensures forall k | 0 <= k < |item| :: item[k] == Get(st.values, f.held[k])
  {
    seq(|f.held|, k requires 0 <= k < |f.held| => Get(st.values, f.held[k]))
  }

  /** The held item, if there is one. */
  function SkidQueue(st: Store, f: SkidNet): seq<Item> {
    if High(st, f.full) then [HeldItem(st, f)] else []
  }

  predicate BitsOk(st: Store, f: SkidNet) {
    Get(st.values, f.full) < 2 && Get(st.values, f.input.valid) < 2
    && Get(st.values, f.output.ready) < 2
  }

  lemma SkidBits(m: Module, st: Store, f: SkidNet)
    requires HasSkid(m, f) && InRange(m, st)
    ensures BitsOk(st, f)
  {
    BitRange(m, st, f.full);
    BitRange(m, st, f.input.valid);
    BitRange(m, st, f.output.ready);
  }

  predicate Loads(st: Store, f: SkidNet) {
    High(st, f.input.valid) && (High(st, f.full) <==> High(st, f.output.ready))
  }

  lemma SkidWords(m: Module, st: Store, f: SkidNet)
    requires BitsOk(st, f)
    ensures Eval(m, st, f.FullNext())
         == Flag(if High(st, f.output.ready) then High(st, f.full) && High(st, f.input.valid)
                 else High(st, f.full) || High(st, f.input.valid))
    ensures Eval(m, st, f.Load()) == Flag(Loads(st, f))
  {
    var v, r, full := Get(st.values, f.input.valid), Get(st.values, f.output.ready), Get(st.values, f.full);
    AndBit(full, v);
    OrBit(full, v);
    FlagBit(r);
    EvalMux(m, st, Ref(f.output.ready), And(Ref(f.full), Ref(f.input.valid)),
            Or(Ref(f.full), Ref(f.input.valid)), r == 1);
    LoadWord(m, st, f);
  }

  lemma NotRef(m: Module, st: Store, x: Signal)
    ensures Eval(m, st, Not(Ref(x))) == NotWord(Get(st.values, x))
  {
    assert Eval(m, st, Ref(x)) == Get(st.values, x);
  }

  lemma LoadWord(m: Module, st: Store, f: SkidNet)
    requires BitsOk(st, f)
    ensures Eval(m, st, f.Load()) == Flag(Loads(st, f))
  {
    var v, r, full := Get(st.values, f.input.valid), Get(st.values, f.output.ready), Get(st.values, f.full);
    LoadBit(v, full, r);
    NotRef(m, st, f.full);
    NotRef(m, st, f.output.ready);
    var hold, pass := And(Not(Ref(f.full)), Not(Ref(f.output.ready))), And(Ref(f.full), Ref(f.output.ready));
    assert Eval(m, st, hold) == BitsWord(AndOp, NotWord(full), NotWord(r));
    assert Eval(m, st, pass) == BitsWord(AndOp, full, r);
    assert Eval(m, st, Or(hold, pass))
        == BitsWord(OrOp, BitsWord(AndOp, NotWord(full), NotWord(r)), BitsWord(AndOp, full, r));
  }

  lemma ReadyWire(m: Module, st: Store, f: SkidNet)
    requires HasSkid(m, f) && InRange(m, st) && EquationsHold(m, st)
    ensures High(st, f.input.ready) <==> !High(st, f.full) || High(st, f.output.ready)
  {
    SkidBits(m, st, f);
    var r, full := Get(st.values, f.output.ready), Get(st.values, f.full);
    var e := Or(Not(Ref(f.full)), Ref(f.output.ready));
    assert Assignment(f.input.ready, e) in m.assignments;
    NotRef(m, st, f.full);
    assert Eval(m, st, e) == BitsWord(OrOp, NotWord(full), r);
    NotOrBit(full, r);
  }

  lemma ValidWire(m: Module, st: Store, f: SkidNet)
    requires HasSkid(m, f) && InRange(m, st) && EquationsHold(m, st)
    ensures High(st, f.output.valid) <==> High(st, f.full) || High(st, f.input.valid)
  {
    SkidBits(m, st, f);
    var v, full := Get(st.values, f.input.valid), Get(st.values, f.full);
    var e := Or(Ref(f.full), Ref(f.input.valid));
    assert Assignment(f.output.valid, e) in m.assignments;
    OrBit(full, v);
    assert Eval(m, st, e) == Flag(full == 1 || v == 1);
    assert Pow2(1) == 2;
    MaskedSmall(Flag(full == 1 || v == 1), 1);
  }

  /** The handshake wires of a settled skid buffer. */
  lemma SkidWires(m: Module, st: Store, f: SkidNet)
    requires HasSkid(m, f) && InRange(m, st) && EquationsHold(m, st)
    ensures High(st, f.input.ready) <==> !High(st, f.full) || High(st, f.output.ready)
    ensures High(st, f.output.valid) <==> High(st, f.full) || High(st, f.input.valid)
  {
    ReadyWire(m, st, f);
    ValidWire(m, st, f);
  }

  lemma SkidOutput(m: Module, st: Store, f: SkidNet, k: nat)
    requires HasSkid(m, f) && InRange(m, st) && EquationsHold(m, st) && k < |f.fields|
    ensures Get(st.values, f.output.bits[k])
         == Get(st.values, if High(st, f.full) then f.held[k] else f.input.bits[k])
  {
    SkidBits(m, st, f);
    assert Assigns(m, f.output.bits[k], f.OutBits(k));
    assert Assignment(f.output.bits[k], f.OutBits(k)) in m.assignments;
    FlagBit(Get(st.values, f.full));
    EvalMux(m, st, Ref(f.full), Ref(f.held[k]), Ref(f.input.bits[k]), High(st, f.full));
    assert HasReg(m, f.held[k], f.fields[k], f.clock, f.reset, f.HeldNext(k));
    SignalRange(m, st, f.held[k], f.fields[k]);
    SignalRange(m, st, f.input.bits[k], f.fields[k]);
    MaskedSmall(Eval(m, st, f.OutBits(k)), f.fields[k].width);
  }

  /** In every settled state the skid buffer shows the held item, or passes the
      offered one through. */
  lemma SkidShows(m: Module, st: Store, f: SkidNet)
    requires HasSkid(m, f) && InRange(m, st) && EquationsHold(m, st)
    ensures Shows(Skid, SkidQueue(st, f), Observe(st, f.input, f.output, f.reset))
  {
    SkidWires(m, st, f);
    forall k | 0 <= k < |f.fields| {
      SkidOutput(m, st, f, k);
    }
    assert ChannelItem(st, f.output)
        == if High(st, f.full) then HeldItem(st, f) else ChannelItem(st, f.input);
  }

  lemma HeldAfter(m: Module, st: Store, edges: ClockEdges, f: SkidNet, k: nat)
    requires HasSkid(m, f) && InRange(m, st) && k < |f.fields|
    requires edges.Rises(f.clock) && !High(st, f.reset)
    ensures Get(LatchStore(m, st, edges).values, f.held[k])
         == Get(st.values, if Loads(st, f) then f.input.bits[k] else f.held[k])
  {
    SkidBits(m, st, f);
    SkidWords(m, st, f);
    assert HasReg(m, f.held[k], f.fields[k], f.clock, f.reset, f.HeldNext(k));
    RegAfter(m, st, edges, f.held[k], f.fields[k], f.clock, f.reset, f.HeldNext(k));
    EvalMux(m, st, f.Load(), Ref(f.input.bits[k]), Ref(f.held[k]), Loads(st, f));
    SignalRange(m, st, f.held[k], f.fields[k]);
    SignalRange(m, st, f.input.bits[k], f.fields[k]);
    MaskedSmall(Eval(m, st, f.HeldNext(k)), f.fields[k].width);
  }

  lemma FullAfter(m: Module, st: Store, edges: ClockEdges, f: SkidNet)
    requires HasSkid(m, f) && InRange(m, st) && edges.Rises(f.clock)
    ensures High(LatchStore(m, st, edges), f.full)
        <==> !High(st, f.reset)
             && (if High(st, f.output.ready) then High(st, f.full) && High(st, f.input.valid)
                 else High(st, f.full) || High(st, f.input.valid))
  {
    SkidBits(m, st, f);
    SkidWords(m, st, f);
    RegAfter(m, st, edges, f.full, UInt(1), f.clock, f.reset, f.FullNext());
    assert Pow2(1) == 2;
    MaskedSmall(Eval(m, st, f.FullNext()), 1);
  }

  /** One edge of the buffer's clock is one step of the one-place queue. */
  lemma SkidStep(m: Module, st: Store, edges: ClockEdges, f: SkidNet)
    requires HasSkid(m, f) && InRange(m, st) && EquationsHold(m, st) && edges.Rises(f.clock)
    ensures SkidQueue(LatchStore(m, st, edges), f)
         == QueueStep(SkidQueue(st, f), Observe(st, f.input, f.output, f.reset))
  {
    var st' := LatchStore(m, st, edges);
    SkidWires(m, st, f);
    FullAfter(m, st, edges, f);
    if !High(st, f.reset) {
      forall k | 0 <= k < |f.fields| {
        HeldAfter(m, st, edges, f, k);
      }
      assert HeldItem(st', f) == if Loads(st, f) then ChannelItem(st, f.input) else HeldItem(st, f);
    }
  }

  lemma SkidIdle(m: Module, st: Store, edges: ClockEdges, f: SkidNet)
    requires HasSkid(m, f) && !edges.Rises(f.clock)
    ensures SkidQueue(LatchStore(m, st, edges), f) == SkidQueue(st, f)
  {
    RegAfter(m, st, edges, f.full, UInt(1), f.clock, f.reset, f.FullNext());
    forall k | 0 <= k < |f.fields|
      ensures Get(LatchStore(m, st, edges).values, f.held[k]) == Get(st.values, f.held[k])
    {
      assert HasReg(m, f.held[k], f.fields[k], f.clock, f.reset, f.HeldNext(k));
      RegAfter(m, st, edges, f.held[k], f.fields[k], f.clock, f.reset, f.HeldNext(k));
    }
    assert HeldItem(LatchStore(m, st, edges), f) == HeldItem(st, f);
  }

  /** `rv_connect` passes every field and both handshakes through. */
  lemma WiresShow(m: Module, st: Store, f: WiresNet, reset: Signal)
    requires HasWires(m, f) && InRange(m, st) && EquationsHold(m, st)
    ensures Shows(Wires, [], Observe(st, f.input, f.output, reset))
  {
    assert Pow2(1) == 2;
    BitRange(m, st, f.input.valid);
    BitRange(m, st, f.output.ready);
    MaskedSmall(Get(st.values, f.input.valid), 1);
    MaskedSmall(Get(st.values, f.output.ready), 1);
    assert Assignment(f.output.valid, Ref(f.input.valid)) in m.assignments;
    assert Assignment(f.input.ready, Ref(f.output.ready)) in m.assignments;
    forall k | 0 <= k < |f.fields|
      ensures Get(st.values, f.output.bits[k]) == Get(st.values, f.input.bits[k])
    {
      assert Assigns(m, f.output.bits[k], Ref(f.input.bits[k]));
      assert Assignment(f.output.bits[k], Ref(f.input.bits[k])) in m.assignments;
      SignalRange(m, st, f.input.bits[k], f.fields[k]);
      MaskedSmall(Get(st.values, f.input.bits[k]), f.fields[k].width);
    }
    assert ChannelItem(st, f.output) == ChannelItem(st, f.input);
  }
}
