/** The hardware the ready/valid generators emit, as expressions over the
    channel signals and the generated registers. */
module ReadyValid {
  import opened Words
  import opened Rtl

  /** One channel; a scalar payload has one field. */
  datatype Channel = Channel(valid: Signal, ready: Signal, bits: seq<Signal>)

  /** The signals of a channel belong to the module and have its payload types. */
  predicate ChannelOk(m: Module, ch: Channel, fields: seq<BitType>) {
    && SignalType(m, ch.valid) == Some(UInt(1))
    && SignalType(m, ch.ready) == Some(UInt(1))
    && |ch.bits| == |fields|
    && forall k | 0 <= k < |fields| :: SignalType(m, ch.bits[k]) == Some(fields[k])
  }

  /** A register clocked by `clock`, synchronously reset to 0 when `reset` is
      high. */
  function RegInfo(ty: BitType, clock: Signal, reset: Signal, next: Expr): SignalInfo {
    SignalInfo(ty, Reg(Some(clock), Some(Reset(reset, 0, Sync, ActiveHigh)), Some(next)))
  }

  predicate HasReg(m: Module, x: Signal, ty: BitType, clock: Signal, reset: Signal, next: Expr) {
    m.Owns(x) && m.signals[x.id] == RegInfo(ty, clock, reset, next)
  }

  predicate Assigns(m: Module, dst: Signal, e: Expr) {
    Assignment(dst, e) in m.assignments
  }

  // ------------------------------------------------------------ FIFO control

  /** The counters shared by the register FIFO and the memory FIFO. */
  datatype Control = Control(
    input: Channel, output: Channel, clock: Signal, reset: Signal, depth: nat,
    count: Signal, wptr: Signal, rptr: Signal)
  {
    function PtrWidth(): nat
      requires depth > 0
    {
      CeilLog2(depth)
    }

    function CountWidth(): nat { CeilLog2(depth + 1) }

    function NotFull(): Expr { NeExpr(Ref(count), LitU(depth, CountWidth())) }

    function NonEmpty(): Expr { NeExpr(Ref(count), LitU(0, CountWidth())) }

    function WriteFire(): Expr { And(Ref(input.valid), NotFull()) }

    function ReadFire(): Expr { And(NonEmpty(), Ref(output.ready)) }

    function CountNext(): Expr {
      Mux(And(WriteFire(), Not(ReadFire())),
          Plus(Ref(count), LitU(1, CountWidth())),
          Mux(And(ReadFire(), Not(WriteFire())),
              Minus(Ref(count), LitU(1, CountWidth())),
              Ref(count)))
    }

    /** `fifo_ptr_increment` */
    function PtrIncrement(ptr: Signal): Expr
      requires depth > 0
    {
      Mux(EqExpr(Ref(ptr), LitU(depth - 1, PtrWidth())),
          LitU(0, PtrWidth()),
          Plus(Ref(ptr), LitU(1, PtrWidth())))
    }

    function PtrNext(fire: Expr, ptr: Signal): Expr
      requires depth > 0
    {
      Mux(fire, PtrIncrement(ptr), Ref(ptr))
    }
  }

  /** What `emit_rv_fifo_common` leaves in the module. */
  predicate HasControl(m: Module, c: Control, fields: seq<BitType>) {
    && 2 <= c.depth && c.depth + 1 < Pow2(64)
    && ChannelOk(m, c.input, fields) && ChannelOk(m, c.output, fields)
    && SignalType(m, c.reset) == Some(UInt(1))
    && HasReg(m, c.count, UInt(c.CountWidth()), c.clock, c.reset, c.CountNext())
    && HasReg(m, c.wptr, UInt(c.PtrWidth()), c.clock, c.reset, c.PtrNext(c.WriteFire(), c.wptr))
    && HasReg(m, c.rptr, UInt(c.PtrWidth()), c.clock, c.reset, c.PtrNext(c.ReadFire(), c.rptr))
    && Assigns(m, c.input.ready, c.NotFull())
    && Assigns(m, c.output.valid, c.NonEmpty())
  }

  // ---------------------------------------------------------- register FIFO

  /** `data[k][i]` holds field k of slot i. */
  datatype FifoNet = FifoNet(c: Control, fields: seq<BitType>, data: seq<seq<Signal>>)
  {
    function DataNext(k: nat, i: nat): Expr
      requires c.depth > 0 && k < |data| && k < |c.input.bits| && i < |data[k]|
    {
      Mux(And(c.WriteFire(), EqExpr(Ref(c.wptr), LitU(i, c.PtrWidth()))),
          Ref(c.input.bits[k]), Ref(data[k][i]))
    }
  }

  /** `mux_fifo_entry` over the first n entries. */
  function EntryMux(selector: Signal, width: nat, entries: seq<Signal>, n: nat): Expr
    requires 0 < n <= |entries|
  {
    if n == 1 then Ref(entries[0])
    else
      Mux(EqExpr(Ref(selector), LitU(n - 1, width)), Ref(entries[n - 1]),
          EntryMux(selector, width, entries, n - 1))
  }

  /** What `rv_fifo` leaves in the module. */
  predicate HasFifo(m: Module, f: FifoNet) {
    && HasControl(m, f.c, f.fields)
    && |f.data| == |f.fields|
    && (forall k | 0 <= k < |f.fields| :: |f.data[k]| == f.c.depth)
    && (forall k, i | 0 <= k < |f.fields| && 0 <= i < f.c.depth ::
          HasReg(m, f.data[k][i], f.fields[k], f.c.clock, f.c.reset, f.DataNext(k, i)))
    && (forall k | 0 <= k < |f.fields| ::
          Assigns(m, f.c.output.bits[k],
                  EntryMux(f.c.rptr, f.c.PtrWidth(), f.data[k], f.c.depth)))
  }

  // ------------------------------------------------------------ memory FIFO

  /** `packed` says whether the payload is a bundle, stored as one packed word. */
  datatype MemFifoNet = MemFifoNet(
    c: Control, fields: seq<BitType>, packed: bool, mem: Signal, readData: Signal)
  {
    function WordType(): BitType
      requires |fields| > 0
    {
      if packed then UInt(PackedWidth(fields)) else fields[0]
    }

    function WriteData(): Expr
      requires |c.input.bits| > 0
    {
      if packed then Concat(Refs(c.input.bits)) else Ref(c.input.bits[0])
    }

    /** What drives field k of the output payload. */
    function ReadField(k: nat): Expr
      requires k < |fields|
    {
      if packed then Unpack(readData, fields, k) else Ref(readData)
    }
  }

  function Refs(signals: seq<Signal>): (es: seq<Expr>)
    ensures |es| == |signals|
    ensures forall k | 0 <= k < |es| :: es[k] == Ref(signals[k])
  {
    seq(|signals|, k requires 0 <= k < |signals| => Ref(signals[k]))
  }

  /** `bundle_packed_width` */
  function PackedWidth(fields: seq<BitType>): nat {
    if fields == [] then 0 else fields[0].width + PackedWidth(fields[1..])
  }

  /** `unpack_bundle_field` */
  function Unpack(readData: Signal, fields: seq<BitType>, k: nat): Expr
    requires k < |fields|
  {
    var slice := Slice(Ref(readData), PackedWidth(fields[k + 1..]), fields[k].width);
    match fields[k].signedness
    case Unsigned => slice
    case Signed => Cast(slice, Signed)
  }

  /** What `rv_mem_fifo` leaves in the module; the memory has no other writer. */
  predicate HasMemFifo(m: Module, f: MemFifoNet) {
    && HasControl(m, f.c, f.fields)
    && |f.fields| > 0 && (!f.packed ==> |f.fields| == 1)
    && f.WordType().width <= BITS
    && m.Owns(f.mem)
    && m.signals[f.mem.id] == SignalInfo(f.WordType(), Mem(f.c.PtrWidth(), f.c.depth))
    && SignalType(m, f.readData) == Some(f.WordType())
    && MemoryWrite(f.mem, f.c.clock, f.c.WriteFire(), Ref(f.c.wptr), f.WriteData()) in m.memoryWrites
    && (forall w | w in m.memoryWrites && w.mem == f.mem ::
          w == MemoryWrite(f.mem, f.c.clock, f.c.WriteFire(), Ref(f.c.wptr), f.WriteData()))
    && Assigns(m, f.readData, MemRead(f.mem, Ref(f.c.rptr)))
    && (forall k | 0 <= k < |f.fields| :: Assigns(m, f.c.output.bits[k], f.ReadField(k)))
  }

  // ------------------------------------------------------------ skid buffer

  datatype SkidNet = SkidNet(
    input: Channel, output: Channel, clock: Signal, reset: Signal, fields: seq<BitType>,
    full: Signal, held: seq<Signal>)
  {
    function FullNext(): Expr {
      Mux(Ref(output.ready), And(Ref(full), Ref(input.valid)), Or(Ref(full), Ref(input.valid)))
    }

    function Load(): Expr {
      And(Ref(input.valid),
          Or(And(Not(Ref(full)), Not(Ref(output.ready))), And(Ref(full), Ref(output.ready))))
    }

    function HeldNext(k: nat): Expr
      requires k < |held| && k < |input.bits|
    {
      Mux(Load(), Ref(input.bits[k]), Ref(held[k]))
    }

    function OutBits(k: nat): Expr
      requires k < |held| && k < |input.bits|
    {
      Mux(Ref(full), Ref(held[k]), Ref(input.bits[k]))
    }
  }

  /** What `rv_skid_buffer` leaves in the module. */
  predicate HasSkid(m: Module, f: SkidNet) {
    && ChannelOk(m, f.input, f.fields) && ChannelOk(m, f.output, f.fields)
    && SignalType(m, f.reset) == Some(UInt(1))
    && HasReg(m, f.full, UInt(1), f.clock, f.reset, f.FullNext())
    && Assigns(m, f.input.ready, Or(Not(Ref(f.full)), Ref(f.output.ready)))
    && Assigns(m, f.output.valid, Or(Ref(f.full), Ref(f.input.valid)))
    && |f.held| == |f.fields|
    && (forall k | 0 <= k < |f.fields| ::
          && HasReg(m, f.held[k], f.fields[k], f.clock, f.reset, f.HeldNext(k))
          && Assigns(m, f.output.bits[k], f.OutBits(k)))
  }

  // ------------------------------------------------------------- rv_connect

  datatype WiresNet = WiresNet(input: Channel, output: Channel, fields: seq<BitType>)

  /** What `rv_connect` leaves in the module. */
  predicate HasWires(m: Module, f: WiresNet) {
    && ChannelOk(m, f.input, f.fields) && ChannelOk(m, f.output, f.fields)
    && Assigns(m, f.output.valid, Ref(f.input.valid))
    && Assigns(m, f.input.ready, Ref(f.output.ready))
    && forall k | 0 <= k < |f.fields| :: Assigns(m, f.output.bits[k], Ref(f.input.bits[k]))
  }
}
