/** The netlist emitted by `rv_mem_fifo`, run by the simulator, is the same
    queue, although its memory is neither cleared nor write-gated by reset. */
module MemoryFifo {
  import opened Words
  import opened Rtl
  import opened Semantics
  import opened Simulation
  import opened ReadyValid
  import opened Gates
  import opened FifoControl
  import opened RegisterFifo
  import opened Streams
  import opened Bundles
  import Ring

  /** The memory is there, with its declared depth. */
  predicate MemShape(st: Store, f: MemFifoNet) {
    f.mem in st.mems && |st.mems[f.mem]| == f.c.depth
  }

  /** The payload a memory word stands for. */
  function WordItem(word: Word, fields: seq<BitType>, packed: bool): (item: Item)
    ensures |item| == |fields|
    ensures forall k | 0 <= k < |fields| ::
              item[k] == if packed then FieldWord(word, fields, k) else word
  {
    seq(|fields|, k requires 0 <= k < |fields| => if packed then FieldWord(word, fields, k) else word)
  }

  function FieldWord(word: Word, fields: seq<BitType>, k: nat): (w: Word)
    requires k < |fields|
    ensures w == Field(word, fields, k)
  {
    Masked(ShiftRight(word, PackedWidth(fields[k + 1..])), fields[k].width)
  }

  function Slots(st: Store, f: MemFifoNet): (slots: seq<Item>)
    requires MemShape(st, f)
    ensures |slots| == f.c.depth
    ensures forall i | 0 <= i < f.c.depth ::
              slots[i] == WordItem(st.mems[f.mem][i], f.fields, f.packed)
  {
    seq(f.c.depth, i requires 0 <= i < f.c.depth => WordItem(st.mems[f.mem][i], f.fields, f.packed))
  }

  predicate MemFifoInv(st: Store, f: MemFifoNet) {
    MemShape(st, f) && ControlInv(st, f.c)
  }

  function FifoQueue(st: Store, f: MemFifoNet): seq<Item>
    requires MemFifoInv(st, f)
  {
    Ring.Queue(Slots(st, f), Rptr(st, f.c), Count(st, f.c))
  }

  /** The word written for the current input payload. */
  function DataWord(m: Module, st: Store, f: MemFifoNet): Word
    requires HasMemFifo(m, f)
  {
    Masked(Eval(m, st, f.WriteData()), f.WordType().width)
  }

  /** The written word stands for exactly the offered payload. */
  lemma DataWordItem(m: Module, st: Store, f: MemFifoNet)
    requires HasMemFifo(m, f) && InRange(m, st)
    ensures WordItem(DataWord(m, st, f), f.fields, f.packed) == ChannelItem(st, f.c.input)
  {
    var bits := f.c.input.bits;
    if f.packed {
      ConcatPacks(m, st, bits, f.fields);
      MaskedSmall(Eval(m, st, f.WriteData()), f.WordType().width);
      BitsFit(m, st, bits, f.fields);
      forall k | 0 <= k < |f.fields|
        ensures FieldWord(DataWord(m, st, f), f.fields, k) == Get(st.values, bits[k])
      {
        PackField(BitValues(st, bits), f.fields, k);
      }
    } else {
      SignalRange(m, st, bits[0], f.fields[0]);
      MaskedSmall(Get(st.values, bits[0]), f.fields[0].width);
    }
  }

  /** The one write port of the FIFO's memory. */
  function PortOf(f: MemFifoNet): MemoryWrite
    requires |f.c.input.bits| > 0
  {
    MemoryWrite(f.mem, f.c.clock, f.c.WriteFire(), Ref(f.c.wptr), f.WriteData())
  }

  lemma AddressInside(m: Module, st: Store, f: MemFifoNet, ptr: Signal)
    requires HasMemFifo(m, f) && Get(st.values, ptr) < f.c.depth
    ensures Masked(Get(st.values, ptr), 64) == Get(st.values, ptr)
  {
    Widths(m, f.c, f.fields);
    Pow2Mono(f.c.PtrWidth(), 64);
    LowSmall(Get(st.values, ptr), 64);
  }

  function Written(m: Module, st: Store, f: MemFifoNet): seq<Word>
    requires HasMemFifo(m, f) && MemFifoInv(st, f)
  {
    Put(st.mems[f.mem], Wptr(st, f.c), DataWord(m, st, f))
  }

  /** The port writes the slot the write pointer names. */
  lemma PortWrites(m: Module, st: Store, f: MemFifoNet, mems: Memories)
    requires HasMemFifo(m, f) && MemFifoInv(st, f)
    requires f.mem in mems && (mems[f.mem] == st.mems[f.mem] || mems[f.mem] == Written(m, st, f))
    ensures f.mem in WriteMem(mems, f.mem, Get(st.values, f.c.wptr), DataWord(m, st, f))
    ensures WriteMem(mems, f.mem, Get(st.values, f.c.wptr), DataWord(m, st, f))[f.mem]
         == Written(m, st, f)
  {
    AddressInside(m, st, f, f.c.wptr);
  }

  predicate Stores(st: Store, edges: ClockEdges, f: MemFifoNet) {
    edges.Rises(f.c.clock) && Puts(st, f.c)
  }

  /** One more write of the edge, as the FIFO's memory sees it. */
  lemma OneWrite(m: Module, st: Store, edges: ClockEdges, f: MemFifoNet, i: nat)
    requires HasMemFifo(m, f) && InRange(m, st) && MemFifoInv(st, f) && 0 < i <= |m.memoryWrites|
    requires
      var mems := WritesApplied(m, st, edges, i - 1);
      f.mem in mems && (mems[f.mem] == st.mems[f.mem] || mems[f.mem] == Written(m, st, f))
    ensures f.mem in WritesApplied(m, st, edges, i)
    ensures WritesApplied(m, st, edges, i)[f.mem]
         == if m.memoryWrites[i - 1].mem == f.mem && Stores(st, edges, f) then Written(m, st, f)
            else WritesApplied(m, st, edges, i - 1)[f.mem]
  {
    var next, before := m.memoryWrites[i - 1], WritesApplied(m, st, edges, i - 1);
    if next.mem == f.mem {
      assert next in m.memoryWrites;
      assert next == PortOf(f);
      FireBits(m, st, f.c, f.fields);
      PortWrites(m, st, f, before);
      assert Eval(m, st, next.addr) == Get(st.values, f.c.wptr);
    }
  }

  /** Whether the only writer is among the first i writes. */
  predicate Passed(m: Module, f: MemFifoNet, i: nat)
    requires |f.fields| > 0 && |f.c.input.bits| > 0 && i <= |m.memoryWrites|
  {
    PortOf(f) in m.memoryWrites[..i]
  }

  lemma PassedStep(m: Module, f: MemFifoNet, i: nat)
    requires HasMemFifo(m, f) && 0 < i <= |m.memoryWrites|
    ensures Passed(m, f, i) <==> Passed(m, f, i - 1) || m.memoryWrites[i - 1].mem == f.mem
  {
    var next := m.memoryWrites[i - 1];
    assert m.memoryWrites[..i] == m.memoryWrites[..i - 1] + [next];
    assert next in m.memoryWrites;
    assert next.mem == f.mem <==> next == PortOf(f);
  }

  /** The memory after the first i writes of an edge. */
  lemma {:induction false} MemAfterWrites(m: Module, st: Store, edges: ClockEdges, f: MemFifoNet, i: nat)
    requires HasMemFifo(m, f) && InRange(m, st) && MemFifoInv(st, f) && i <= |m.memoryWrites|
    ensures f.mem in WritesApplied(m, st, edges, i)
    ensures WritesApplied(m, st, edges, i)[f.mem]
         == if Passed(m, f, i) && Stores(st, edges, f) then Written(m, st, f) else st.mems[f.mem]
  {
    if i > 0 {
      MemAfterWrites(m, st, edges, f, i - 1);
      OneWrite(m, st, edges, f, i);
      PassedStep(m, f, i);
    }
  }

  lemma MemAfter(m: Module, st: Store, edges: ClockEdges, f: MemFifoNet)
    requires HasMemFifo(m, f) && InRange(m, st) && MemFifoInv(st, f)
    ensures MemShape(LatchStore(m, st, edges), f)
    ensures LatchStore(m, st, edges).mems[f.mem]
         == if Stores(st, edges, f) then Written(m, st, f) else st.mems[f.mem]
  {
    MemAfterWrites(m, st, edges, f, |m.memoryWrites|);
    assert m.memoryWrites[..|m.memoryWrites|] == m.memoryWrites;
  }

  lemma SlotsAfter(m: Module, st: Store, edges: ClockEdges, f: MemFifoNet)
    requires HasMemFifo(m, f) && InRange(m, st) && MemFifoInv(st, f)
    ensures MemShape(LatchStore(m, st, edges), f)
    ensures Slots(LatchStore(m, st, edges), f)
         == if edges.Rises(f.c.clock) && Puts(st, f.c)
            then Slots(st, f)[Wptr(st, f.c) := ChannelItem(st, f.c.input)]
            else Slots(st, f)
  {
    MemAfter(m, st, edges, f);
    DataWordItem(m, st, f);
    SlotsOf(m, st, LatchStore(m, st, edges), f, Stores(st, edges, f));
  }

  /** The slots follow the words. */
  lemma SlotsOf(m: Module, st: Store, st': Store, f: MemFifoNet, stores: bool)
    requires HasMemFifo(m, f) && MemFifoInv(st, f) && MemShape(st', f)
    requires st'.mems[f.mem] == if stores then Written(m, st, f) else st.mems[f.mem]
    requires WordItem(DataWord(m, st, f), f.fields, f.packed) == ChannelItem(st, f.c.input)
    ensures Slots(st', f)
         == if stores then Slots(st, f)[Wptr(st, f.c) := ChannelItem(st, f.c.input)] else Slots(st, f)
  {
  }

  /** The read wire carries the word the read pointer names. */
  lemma ReadWire(m: Module, st: Store, f: MemFifoNet)
    requires HasMemFifo(m, f) && InRange(m, st) && EquationsHold(m, st) && MemFifoInv(st, f)
    ensures Get(st.values, f.readData) == st.mems[f.mem][Rptr(st, f.c)]
  {
    var e, r := MemRead(f.mem, Ref(f.c.rptr)), Rptr(st, f.c);
    assert Assignment(f.readData, e) in m.assignments;
    AddressInside(m, st, f, f.c.rptr);
    ReadsWord(m, st, f);
    MaskedSmall(st.mems[f.mem][r], f.WordType().width);
  }

  lemma ReadsWord(m: Module, st: Store, f: MemFifoNet)
    requires MemShape(st, f) && Rptr(st, f.c) < f.c.depth
    requires Masked(Get(st.values, f.c.rptr), 64) == Get(st.values, f.c.rptr)
    ensures Eval(m, st, MemRead(f.mem, Ref(f.c.rptr))) == st.mems[f.mem][Rptr(st, f.c)]
  {
    assert Eval(m, st, Ref(f.c.rptr)) == Get(st.values, f.c.rptr);
  }

  lemma FieldFits(m: Module, st: Store, f: MemFifoNet, k: nat)
    requires HasMemFifo(m, f) && InRange(m, st) && EquationsHold(m, st) && MemFifoInv(st, f)
    requires k < |f.fields|
    ensures Get(st.values, f.c.output.bits[k])
         == WordItem(st.mems[f.mem][Rptr(st, f.c)], f.fields, f.packed)[k]
  {
    ReadWire(m, st, f);
    FieldWire(m, st, f, k);
    FieldRead(m, st, f, k);
  }

  lemma FieldRead(m: Module, st: Store, f: MemFifoNet, k: nat)
    requires HasMemFifo(m, f) && InRange(m, st) && k < |f.fields|
    ensures Masked(Eval(m, st, f.ReadField(k)), f.fields[k].width)
         == WordItem(Get(st.values, f.readData), f.fields, f.packed)[k]
  {
    if f.packed {
      PackedRead(m, st, f, k);
    } else {
      PlainRead(m, st, f, k);
    }
  }

  lemma PlainRead(m: Module, st: Store, f: MemFifoNet, k: nat)
    requires HasMemFifo(m, f) && InRange(m, st) && !f.packed && k < |f.fields|
    ensures Masked(Eval(m, st, f.ReadField(k)), f.fields[k].width) == Get(st.values, f.readData)
  {
    SignalRange(m, st, f.readData, f.WordType());
    MaskedSmall(Get(st.values, f.readData), f.fields[k].width);
  }

  lemma PackedRead(m: Module, st: Store, f: MemFifoNet, k: nat)
    requires HasMemFifo(m, f) && f.packed && k < |f.fields|
    ensures Masked(Eval(m, st, f.ReadField(k)), f.fields[k].width)
         == FieldWord(Get(st.values, f.readData), f.fields, k)
  {
    UnpackField(m, st, f.readData, f.fields, k);
    MaskedSmall(FieldWord(Get(st.values, f.readData), f.fields, k), f.fields[k].width);
  }

  lemma FieldWire(m: Module, st: Store, f: MemFifoNet, k: nat)
    requires HasMemFifo(m, f) && EquationsHold(m, st) && k < |f.fields|
    ensures Get(st.values, f.c.output.bits[k])
         == Masked(Eval(m, st, f.ReadField(k)), f.fields[k].width)
  {
    assert Assigns(m, f.c.output.bits[k], f.ReadField(k));
    assert Assignment(f.c.output.bits[k], f.ReadField(k)) in m.assignments;
  }

  /** In every settled state the memory FIFO shows its queue. */
  lemma MemFifoShows(m: Module, st: Store, f: MemFifoNet)
    requires HasMemFifo(m, f) && InRange(m, st) && EquationsHold(m, st) && MemFifoInv(st, f)
    ensures Shows(Fifo(f.c.depth), FifoQueue(st, f), Observe(st, f.c.input, f.c.output, f.c.reset))
  {
    ControlWires(m, st, f.c, f.fields);
    var q, r := FifoQueue(st, f), Rptr(st, f.c);
    if q != [] {
      forall k | 0 <= k < |f.fields| {
        FieldFits(m, st, f, k);
      }
      assert ChannelItem(st, f.c.output) == Slots(st, f)[r];
      assert q[0] == Slots(st, f)[Ring.Slot(r, 0, f.c.depth)];
    }
  }

  /** One edge of the FIFO's clock is one step of the queue. */
  lemma MemFifoStep(m: Module, st: Store, edges: ClockEdges, f: MemFifoNet)
    requires HasMemFifo(m, f) && InRange(m, st) && EquationsHold(m, st) && MemFifoInv(st, f)
    requires edges.Rises(f.c.clock)
    ensures MemFifoInv(LatchStore(m, st, edges), f)
    ensures FifoQueue(LatchStore(m, st, edges), f)
         == QueueStep(FifoQueue(st, f), Observe(st, f.c.input, f.c.output, f.c.reset))
  {
    if High(st, f.c.reset) {
      MemFifoReset(m, st, edges, f);
    } else {
      MemFifoMove(m, st, edges, f);
    }
  }

  lemma MemFifoReset(m: Module, st: Store, edges: ClockEdges, f: MemFifoNet)
    requires HasMemFifo(m, f) && InRange(m, st) && MemFifoInv(st, f)
    requires edges.Rises(f.c.clock) && High(st, f.c.reset)
    ensures MemFifoInv(LatchStore(m, st, edges), f) && FifoQueue(LatchStore(m, st, edges), f) == []
  {
    MemAfter(m, st, edges, f);
    assert Count(LatchStore(m, st, edges), f.c) == 0 && ControlInv(LatchStore(m, st, edges), f.c) by {
      ControlStep(m, st, edges, f.c, f.fields);
    }
  }

  lemma MemFifoMove(m: Module, st: Store, edges: ClockEdges, f: MemFifoNet)
    requires HasMemFifo(m, f) && InRange(m, st) && EquationsHold(m, st) && MemFifoInv(st, f)
    requires edges.Rises(f.c.clock) && !High(st, f.c.reset)
    ensures MemFifoInv(LatchStore(m, st, edges), f)
    ensures FifoQueue(LatchStore(m, st, edges), f)
         == QueueStep(FifoQueue(st, f), Observe(st, f.c.input, f.c.output, f.c.reset))
  {
    var c, st' := f.c, LatchStore(m, st, edges);
    SlotsAfter(m, st, edges, f);
    ControlStep(m, st, edges, c, f.fields);
    ControlWires(m, st, c, f.fields);
    RingCycle(st, st', c, Slots(st, f), Slots(st', f), Observe(st, c.input, c.output, c.reset));
  }

  /** Edges of other clocks leave the FIFO alone. */
  lemma MemFifoIdle(m: Module, st: Store, edges: ClockEdges, f: MemFifoNet)
    requires HasMemFifo(m, f) && InRange(m, st) && MemFifoInv(st, f) && !edges.Rises(f.c.clock)
    ensures MemFifoInv(LatchStore(m, st, edges), f)
    ensures FifoQueue(LatchStore(m, st, edges), f) == FifoQueue(st, f)
  {
    ControlIdle(m, st, edges, f.c, f.fields);
    SlotsAfter(m, st, edges, f);
  }
}
