/** The generated stages under one roof: whatever the generator, a settled
    stage shows its queue and an edge of its clock steps it. */
module Stages {
  import opened Rtl
  import opened Semantics
  import opened Simulation
  import opened ReadyValid
  import opened FifoControl
  import opened Streams
  import RegisterFifo
  import MemoryFifo
  import SkidBuffer
  import Gates

  datatype StageNet =
    | FifoStage(fifo: FifoNet)
    | MemStage(mem: MemFifoNet)
    | SkidStage(skid: SkidNet)
    | WireStage(wires: WiresNet, wireClock: Signal, wireReset: Signal)
  {
    function Input(): Channel {
      match this
      case FifoStage(f) => f.c.input
      case MemStage(f) => f.c.input
      case SkidStage(f) => f.input
      case WireStage(f, _, _) => f.input
    }

    function Output(): Channel {
      match this
      case FifoStage(f) => f.c.output
      case MemStage(f) => f.c.output
      case SkidStage(f) => f.output
      case WireStage(f, _, _) => f.output
    }

    function Clock(): Signal {
      match this
      case FifoStage(f) => f.c.clock
      case MemStage(f) => f.c.clock
      case SkidStage(f) => f.clock
      case WireStage(_, clock, _) => clock
    }

    function ResetSignal(): Signal {
      match this
      case FifoStage(f) => f.c.reset
      case MemStage(f) => f.c.reset
      case SkidStage(f) => f.reset
      case WireStage(_, _, reset) => reset
    }

    function Kind(): Stage {
      match this
      case FifoStage(f) => Fifo(f.c.depth)
      case MemStage(f) => Fifo(f.c.depth)
      case SkidStage(_) => Skid
      case WireStage(_, _, _) => Wires
    }

    /** The registers that must start at 0. */
    function ControlRegs(): set<Signal> {
      match this
      case FifoStage(f) => {f.c.count, f.c.wptr, f.c.rptr}
      case MemStage(f) => {f.c.count, f.c.wptr, f.c.rptr}
      case SkidStage(f) => {f.full}
      case WireStage(_, _, _) => {}
    }
  }

  predicate HasStage(m: Module, n: StageNet) {
    match n
    case FifoStage(f) => HasFifo(m, f)
    case MemStage(f) => HasMemFifo(m, f)
    case SkidStage(f) => HasSkid(m, f)
    case WireStage(f, _, _) => HasWires(m, f)
  }

  predicate StageInv(st: Store, n: StageNet) {
    match n
    case FifoStage(f) => RegisterFifo.Square(f) && ControlInv(st, f.c)
    case MemStage(f) => MemoryFifo.MemFifoInv(st, f)
    case SkidStage(f) => true
    case WireStage(_, _, _) => true
  }

  /** The payloads a stage holds, oldest first. */
  function StageQueue(st: Store, n: StageNet): seq<Item>
    requires StageInv(st, n)
  {
    match n
    case FifoStage(f) => RegisterFifo.FifoQueue(st, f)
    case MemStage(f) => MemoryFifo.FifoQueue(st, f)
    case SkidStage(f) => SkidBuffer.SkidQueue(st, f)
    case WireStage(_, _, _) => []
  }

  function StageObserve(st: Store, n: StageNet): Cycle {
    RegisterFifo.Observe(st, n.Input(), n.Output(), n.ResetSignal())
  }

  /** A settled stage shows the queue it holds. */
  lemma NetShows(m: Module, st: Store, n: StageNet)
    requires HasStage(m, n) && InRange(m, st) && EquationsHold(m, st) && StageInv(st, n)
    ensures Shows(n.Kind(), StageQueue(st, n), StageObserve(st, n))
  {
    match n
    case FifoStage(f) => RegisterFifo.FifoShows(m, st, f);
    case MemStage(f) => MemoryFifo.MemFifoShows(m, st, f);
    case SkidStage(f) => SkidBuffer.SkidShows(m, st, f);
    case WireStage(f, _, reset) => SkidBuffer.WiresShow(m, st, f, reset);
  }

  /** An edge of the stage's clock is one step of its queue. */
  lemma NetStep(m: Module, st: Store, edges: ClockEdges, n: StageNet)
    requires HasStage(m, n) && InRange(m, st) && EquationsHold(m, st) && StageInv(st, n)
    requires edges.Rises(n.Clock())
    ensures StageInv(LatchStore(m, st, edges), n)
    ensures StageQueue(LatchStore(m, st, edges), n) == QueueStep(StageQueue(st, n), StageObserve(st, n))
  {
    match n
    case FifoStage(f) => RegisterFifo.FifoStep(m, st, edges, f);
    case MemStage(f) => MemoryFifo.MemFifoStep(m, st, edges, f);
    case SkidStage(f) => SkidBuffer.SkidStep(m, st, edges, f);
    case WireStage(f, _, reset) => SkidBuffer.WiresShow(m, st, f, reset);
  }

  /** An edge of other clocks leaves the stage alone. */
  lemma NetIdle(m: Module, st: Store, edges: ClockEdges, n: StageNet)
    requires HasStage(m, n) && InRange(m, st) && StageInv(st, n)
    requires !edges.Rises(n.Clock())
    ensures StageInv(LatchStore(m, st, edges), n)
    ensures StageQueue(LatchStore(m, st, edges), n) == StageQueue(st, n)
  {
    match n
    case FifoStage(f) => RegisterFifo.FifoIdle(m, st, edges, f);
    case MemStage(f) => MemoryFifo.MemFifoIdle(m, st, edges, f);
    case SkidStage(f) => SkidBuffer.SkidIdle(m, st, edges, f);
    case WireStage(_, _, _) =>
  }

  /** Synchronously reset registers, and memories, agree. */
  predicate SameRegs(m: Module, a: Store, b: Store) {
    && a.mems == b.mems
    && forall i | 0 <= i < |m.signals| && m.signals[i].kind.Reg? && !HasAsync(m.signals[i]) ::
         Get(a.values, m.Handle(i)) == Get(b.values, m.Handle(i))
  }

  lemma SameReg(m: Module, a: Store, b: Store, x: Signal, ty: BitType, clock: Signal, reset: Signal, next: Expr)
    requires SameRegs(m, a, b) && HasReg(m, x, ty, clock, reset, next)
    ensures Get(a.values, x) == Get(b.values, x)
  {
    assert m.Handle(x.id) == x;
  }

  /** The stage's contents are in its registers and memory. */
  lemma FifoFrame(m: Module, a: Store, b: Store, f: FifoNet)
    requires HasFifo(m, f) && SameRegs(m, a, b)
    ensures RegisterFifo.Slots(a, f) == RegisterFifo.Slots(b, f)
  {
    forall i | 0 <= i < f.c.depth
      ensures RegisterFifo.SlotItem(a, f, i) == RegisterFifo.SlotItem(b, f, i)
    {
      forall k | 0 <= k < |f.fields|
        ensures Get(a.values, f.data[k][i]) == Get(b.values, f.data[k][i])
      {
        assert HasReg(m, f.data[k][i], f.fields[k], f.c.clock, f.c.reset, f.DataNext(k, i));
        SameReg(m, a, b, f.data[k][i], f.fields[k], f.c.clock, f.c.reset, f.DataNext(k, i));
      }
    }
  }

  lemma SkidFrame(m: Module, a: Store, b: Store, f: SkidNet)
    requires HasSkid(m, f) && SameRegs(m, a, b)
    ensures Get(a.values, f.full) == Get(b.values, f.full)
    ensures SkidBuffer.HeldItem(a, f) == SkidBuffer.HeldItem(b, f)
  {
    SameReg(m, a, b, f.full, UInt(1), f.clock, f.reset, f.FullNext());
    forall k | 0 <= k < |f.fields|
      ensures Get(a.values, f.held[k]) == Get(b.values, f.held[k])
    {
      assert HasReg(m, f.held[k], f.fields[k], f.clock, f.reset, f.HeldNext(k));
      SameReg(m, a, b, f.held[k], f.fields[k], f.clock, f.reset, f.HeldNext(k));
    }
  }

  lemma StageFrame(m: Module, a: Store, b: Store, n: StageNet)
    requires HasStage(m, n) && SameRegs(m, a, b) && StageInv(a, n)
    ensures StageInv(b, n) && StageQueue(b, n) == StageQueue(a, n)
  {
    match n
    case FifoStage(f) =>
      ControlFrame(m, a, b, f.c, f.fields);
      FifoFrame(m, a, b, f);
    case MemStage(f) =>
      ControlFrame(m, a, b, f.c, f.fields);
      assert MemoryFifo.Slots(a, f) == MemoryFifo.Slots(b, f);
    case SkidStage(f) =>
      SkidFrame(m, a, b, f);
    case WireStage(_, _, _) =>
  }

  lemma ControlFrame(m: Module, a: Store, b: Store, c: Control, fields: seq<BitType>)
    requires HasControl(m, c, fields) && SameRegs(m, a, b)
    ensures Count(a, c) == Count(b, c) && Rptr(a, c) == Rptr(b, c) && Wptr(a, c) == Wptr(b, c)
  {
    SameReg(m, a, b, c.count, UInt(c.CountWidth()), c.clock, c.reset, c.CountNext());
    SameReg(m, a, b, c.wptr, UInt(c.PtrWidth()), c.clock, c.reset, c.PtrNext(c.WriteFire(), c.wptr));
    SameReg(m, a, b, c.rptr, UInt(c.PtrWidth()), c.clock, c.reset, c.PtrNext(c.ReadFire(), c.rptr));
  }

  // ------------------------------------------------------------ power-up

  /** No initial value is given to the stage's control registers. */
  predicate NoInitial(m: Module, n: StageNet) {
    forall i | 0 <= i < |m.initialRegisters| :: m.initialRegisters[i].reg !in n.ControlRegs()
  }

  lemma {:induction false} FirstInitialZero(initials: seq<InitialRegister>, x: Signal, width: nat)
    requires forall i | 0 <= i < |initials| :: initials[i].reg != x
    ensures FirstInitial(initials, x, width) == 0
  {
    if initials == [] {
      Gates.EncodeZero(width);
    } else {
      FirstInitialZero(initials[1..], x, width);
    }
  }

  lemma InitialZero(m: Module, x: Signal)
    requires m.Owns(x) && forall i | 0 <= i < |m.initialRegisters| :: m.initialRegisters[i].reg != x
    ensures Get(InitialStore(m).values, x) == 0
  {
    FirstInitialZero(m.initialRegisters, x, m.WidthOf(x));
    assert m.Handle(x.id) == x;
  }

  lemma ControlEmpty(m: Module, c: Control, fields: seq<BitType>)
    requires HasControl(m, c, fields)
    requires forall i | 0 <= i < |m.initialRegisters| ::
               m.initialRegisters[i].reg !in {c.count, c.wptr, c.rptr}
    ensures ControlInv(InitialStore(m), c) && Count(InitialStore(m), c) == 0
  {
    InitialZero(m, c.count);
    InitialZero(m, c.wptr);
    InitialZero(m, c.rptr);
  }

  /** A freshly constructed stage is empty. */
  lemma StageEmpty(m: Module, n: StageNet)
    requires HasStage(m, n) && NoInitial(m, n)
    ensures StageInv(InitialStore(m), n) && StageQueue(InitialStore(m), n) == []
  {
    match n
    case FifoStage(f) =>
      ControlEmpty(m, f.c, f.fields);
    case MemStage(f) =>
      ControlEmpty(m, f.c, f.fields);
      MemThere(m, f);
    case SkidStage(f) =>
      assert f.full in n.ControlRegs();
      InitialZero(m, f.full);
    case WireStage(_, _, _) =>
  }

  lemma MemThere(m: Module, f: MemFifoNet)
    requires HasMemFifo(m, f)
    ensures MemoryFifo.MemShape(InitialStore(m), f)
  {
    assert m.Handle(f.mem.id) == f.mem;
  }
}
