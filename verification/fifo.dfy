/** The netlist emitted by `rv_fifo`, run by the simulator, is a queue. */
module RegisterFifo {
  import opened Words
  import opened Rtl
  import opened Semantics
  import opened Simulation
  import opened ReadyValid
  import opened Gates
  import opened FifoControl
  import opened Streams
  import Ring

  // ------------------------------------------------------------ observations

  function ChannelItem(st: Store, ch: Channel): (item: Item)
    ensures |item| == |ch.bits|
    ensures forall k | 0 <= k < |item| :: item[k] == Get(st.values, ch.bits[k])
  {
    seq(|ch.bits|, k requires 0 <= k < |ch.bits| => Get(st.values, ch.bits[k]))
  }

  /** What two channels carry in a settled state. */
  function Observe(st: Store, input: Channel, output: Channel, reset: Signal): Cycle {
    Cycle(High(st, reset),
          High(st, input.valid), High(st, input.ready), ChannelItem(st, input),
          High(st, output.valid), High(st, output.ready), ChannelItem(st, output))
  }

  // ----------------------------------------------------------------- storage

  function SlotItem(st: Store, f: FifoNet, i: nat): (item: Item)
    requires forall k | 0 <= k < |f.data| :: i < |f.data[k]|
    ensures |item| == |f.data|
    ensures forall k | 0 <= k < |f.data| :: item[k] == Get(st.values, f.data[k][i])
  {
    seq(|f.data|, k requires 0 <= k < |f.data| => Get(st.values, f.data[k][i]))
  }

  predicate Square(f: FifoNet) {
    forall k | 0 <= k < |f.data| :: |f.data[k]| == f.c.depth
  }

  function Slots(st: Store, f: FifoNet): (slots: seq<Item>)
    requires Square(f)
    ensures |slots| == f.c.depth
    ensures forall i | 0 <= i < f.c.depth :: slots[i] == SlotItem(st, f, i)
  {
    seq(f.c.depth, i requires 0 <= i < f.c.depth => SlotItem(st, f, i))
  }

  /** The contents of the FIFO, oldest first. */
  function FifoQueue(st: Store, f: FifoNet): seq<Item>
    requires Square(f) && ControlInv(st, f.c)
  {
    Ring.Queue(Slots(st, f), Rptr(st, f.c), Count(st, f.c))
  }

  /** The entry mux selects the entry its selector names. */
  lemma {:induction false} EntryMuxValue(m: Module, st: Store, sel: Signal, w: nat, entries: seq<Signal>, n: nat)
    requires 0 < n <= |entries| && n <= Pow2(w) && w <= BITS
    ensures Eval(m, st, EntryMux(sel, w, entries, n))
         == Get(st.values, if Get(st.values, sel) < n then entries[Get(st.values, sel)] else entries[0])
  {
    if n > 1 {
      EntryMuxValue(m, st, sel, w, entries, n - 1);
      EvalEq(m, st, sel, n - 1, w);
      EvalMux(m, st, EqExpr(Ref(sel), LitU(n - 1, w)), Ref(entries[n - 1]),
              EntryMux(sel, w, entries, n - 1), Get(st.values, sel) == n - 1);
    }
  }

  /** A data register loads the input exactly when the write pointer names it. */
  lemma DataNextWord(m: Module, st: Store, f: FifoNet, k: nat, i: nat)
    requires HasFifo(m, f) && InRange(m, st) && k < |f.fields| && i < f.c.depth
    ensures Eval(m, st, f.DataNext(k, i))
         == Get(st.values, if Puts(st, f.c) && Wptr(st, f.c) == i then f.c.input.bits[k]
                           else f.data[k][i])
  {
    var c := f.c;
    var here := EqExpr(Ref(c.wptr), LitU(i, c.PtrWidth()));
    Widths(m, c, f.fields);
    FireBits(m, st, c, f.fields);
    EvalEq(m, st, c.wptr, i, c.PtrWidth());
    AndBit(Flag(Puts(st, c)), Flag(Wptr(st, c) == i));
    assert Eval(m, st, And(c.WriteFire(), here)) == Flag(Puts(st, c) && Wptr(st, c) == i);
    EvalMux(m, st, And(c.WriteFire(), here), Ref(c.input.bits[k]), Ref(f.data[k][i]),
            Puts(st, c) && Wptr(st, c) == i);
  }

  predicate Loads(st: Store, f: FifoNet, i: nat) {
    Puts(st, f.c) && Wptr(st, f.c) == i
  }

  lemma DataAfter(m: Module, st: Store, edges: ClockEdges, f: FifoNet, k: nat, i: nat)
    requires HasFifo(m, f) && InRange(m, st) && k < |f.fields| && i < f.c.depth
    requires edges.Rises(f.c.clock) && !High(st, f.c.reset)
    ensures Get(LatchStore(m, st, edges).values, f.data[k][i])
         == Get(st.values, if Loads(st, f, i) then f.c.input.bits[k] else f.data[k][i])
  {
    var x, ty := f.data[k][i], f.fields[k];
    assert HasReg(m, x, ty, f.c.clock, f.c.reset, f.DataNext(k, i));
    RegAfter(m, st, edges, x, ty, f.c.clock, f.c.reset, f.DataNext(k, i));
    DataNextWord(m, st, f, k, i);
    SignalRange(m, st, x, ty);
    SignalRange(m, st, f.c.input.bits[k], ty);
    MaskedSmall(Eval(m, st, f.DataNext(k, i)), ty.width);
  }

  lemma SlotAfter(m: Module, st: Store, edges: ClockEdges, f: FifoNet, i: nat)
    requires HasFifo(m, f) && InRange(m, st) && i < f.c.depth
    requires edges.Rises(f.c.clock) && !High(st, f.c.reset)
    ensures SlotItem(LatchStore(m, st, edges), f, i)
         == if Loads(st, f, i) then ChannelItem(st, f.c.input) else SlotItem(st, f, i)
  {
    forall k | 0 <= k < |f.fields| {
      DataAfter(m, st, edges, f, k, i);
    }
  }

  lemma SlotsAfter(m: Module, st: Store, edges: ClockEdges, f: FifoNet)
    requires HasFifo(m, f) && InRange(m, st) && ControlInv(st, f.c)
    requires edges.Rises(f.c.clock) && !High(st, f.c.reset)
    ensures Slots(LatchStore(m, st, edges), f)
         == if Puts(st, f.c) then Slots(st, f)[Wptr(st, f.c) := ChannelItem(st, f.c.input)]
            else Slots(st, f)
  {
    var before, after := Slots(st, f), Slots(LatchStore(m, st, edges), f);
    var item, w := ChannelItem(st, f.c.input), Wptr(st, f.c);
    forall i | 0 <= i < f.c.depth
      ensures after[i] == if Puts(st, f.c) && i == w then item else before[i]
    {
      SlotAfter(m, st, edges, f, i);
    }
    OneSlot(before, after, Puts(st, f.c), w, item);
  }

  lemma OneSlot(before: seq<Item>, after: seq<Item>, puts: bool, w: nat, item: Item)
    requires |after| == |before| && (puts ==> w < |before|)
    requires forall i | 0 <= i < |after| :: after[i] == if puts && i == w then item else before[i]
    ensures after == if puts then before[w := item] else before
  {
  }

  /** In every settled state the FIFO shows its queue. */
  lemma FifoShows(m: Module, st: Store, f: FifoNet)
    requires HasFifo(m, f) && InRange(m, st) && EquationsHold(m, st) && ControlInv(st, f.c)
    ensures Shows(Fifo(f.c.depth), FifoQueue(st, f), Observe(st, f.c.input, f.c.output, f.c.reset))
  {
    var c := f.c;
    ControlWires(m, st, c, f.fields);
    Widths(m, c, f.fields);
    var q, r := FifoQueue(st, f), Rptr(st, c);
    if q != [] {
      var out := ChannelItem(st, c.output);
      forall k | 0 <= k < |f.fields|
        ensures out[k] == SlotItem(st, f, r)[k]
      {
        var e := EntryMux(c.rptr, c.PtrWidth(), f.data[k], c.depth);
        assert Assigns(m, c.output.bits[k], e);
        EntryMuxValue(m, st, c.rptr, c.PtrWidth(), f.data[k], c.depth);
        assert HasReg(m, f.data[k][r], f.fields[k], c.clock, c.reset, f.DataNext(k, r));
        SignalRange(m, st, f.data[k][r], f.fields[k]);
        MaskedSmall(Get(st.values, f.data[k][r]), f.fields[k].width);
        assert Assignment(c.output.bits[k], e) in m.assignments;
      }
      assert out == SlotItem(st, f, r);
      assert q[0] == Slots(st, f)[Ring.Slot(r, 0, c.depth)];
    }
  }

  /** One edge of the FIFO's clock is one step of the queue. */
  lemma FifoStep(m: Module, st: Store, edges: ClockEdges, f: FifoNet)
    requires HasFifo(m, f) && InRange(m, st) && EquationsHold(m, st) && ControlInv(st, f.c)
    requires edges.Rises(f.c.clock)
    ensures ControlInv(LatchStore(m, st, edges), f.c)
    ensures FifoQueue(LatchStore(m, st, edges), f)
         == QueueStep(FifoQueue(st, f), Observe(st, f.c.input, f.c.output, f.c.reset))
  {
    var c, st' := f.c, LatchStore(m, st, edges);
    ControlStep(m, st, edges, c, f.fields);
    ControlWires(m, st, c, f.fields);
    if !High(st, c.reset) {
      SlotsAfter(m, st, edges, f);
      RingCycle(st, st', c, Slots(st, f), Slots(st', f), Observe(st, c.input, c.output, c.reset));
    }
  }

  /** Edges of other clocks leave the FIFO alone. */
  lemma SlotIdle(m: Module, st: Store, edges: ClockEdges, f: FifoNet, i: nat)
    requires HasFifo(m, f) && i < f.c.depth && !edges.Rises(f.c.clock)
    ensures SlotItem(LatchStore(m, st, edges), f, i) == SlotItem(st, f, i)
  {
    forall k | 0 <= k < |f.fields|
      ensures SlotItem(LatchStore(m, st, edges), f, i)[k] == SlotItem(st, f, i)[k]
    {
      var x, ty := f.data[k][i], f.fields[k];
      assert HasReg(m, x, ty, f.c.clock, f.c.reset, f.DataNext(k, i));
      RegAfter(m, st, edges, x, ty, f.c.clock, f.c.reset, f.DataNext(k, i));
    }
  }

  lemma FifoIdle(m: Module, st: Store, edges: ClockEdges, f: FifoNet)
    requires HasFifo(m, f) && ControlInv(st, f.c) && !edges.Rises(f.c.clock)
    ensures ControlInv(LatchStore(m, st, edges), f.c)
    ensures FifoQueue(LatchStore(m, st, edges), f) == FifoQueue(st, f)
  {
    var st' := LatchStore(m, st, edges);
    ControlIdle(m, st, edges, f.c, f.fields);
    forall i | 0 <= i < f.c.depth
      ensures SlotItem(st', f, i) == SlotItem(st, f, i)
    {
      SlotIdle(m, st, edges, f, i);
    }
    assert Slots(st', f) == Slots(st, f);
  }
}
