/** What the ready/valid generators add to a module, as facts about modules: each
    says exactly which assignments are appended, and that everything already
    there stays. */
module Emission {
  import opened Words
  import opened Rtl
  import opened Simulation
  import opened ReadyValid

  /** The matched fields of two channels: the input signal, output signal and type
      of each output field, in the order of the output. */
  datatype Match = Match(input: Channel, output: Channel, fields: seq<BitType>, packed: bool)

  /** The k-th payload signal of a channel. */
  function BitAt(ch: Channel, k: nat): Signal {
    if k < |ch.bits| then ch.bits[k] else ch.valid
  }

  // ---------------------------------------------------------------- growth

  function WithSignal(m: Module, info: SignalInfo): Module {
    m.(signals := m.signals + [info])
  }

  function WithAssign(m: Module, dst: Signal, e: Expr): Module {
    m.(assignments := m.assignments + [Assignment(dst, e)])
  }

  function WithWrite(m: Module, w: MemoryWrite): Module {
    m.(memoryWrites := m.memoryWrites + [w])
  }

  /** No port and no asynchronous reset. */
  predicate Plain(info: SignalInfo) {
    !info.kind.Input? && !info.kind.Output? && !HasAsync(info)
  }

  /** Module `b` is `a` with the assignments appended, with more plain signals and
      more memory writes. */
  predicate Emitted(a: Module, b: Module, assigns: seq<Assignment>) {
    && a.id == b.id && a.signals <= b.signals && b.assignments == a.assignments + assigns
    && a.memoryWrites <= b.memoryWrites
    && a.initialRegisters == b.initialRegisters && a.initialWords == b.initialWords
    && forall i | |a.signals| <= i < |b.signals| :: Plain(b.signals[i])
  }

  lemma EmittedTrans(a: Module, b: Module, c: Module, first: seq<Assignment>, more: seq<Assignment>)
    requires Emitted(a, b, first) && Emitted(b, c, more)
    ensures Emitted(a, c, first + more)
  {
  }

  lemma RegAdded(a: Module, ty: BitType, clock: Signal, reset: Signal, next: Expr)
    ensures
      var b := WithSignal(a, RegInfo(ty, clock, reset, next));
      && Emitted(a, b, [])
      && HasReg(b, a.Handle(|a.signals|), ty, clock, reset, next)
  {
  }

  lemma AssignAdded(a: Module, dst: Signal, e: Expr)
    ensures Emitted(a, WithAssign(a, dst, e), [Assignment(dst, e)])
    ensures Assigns(WithAssign(a, dst, e), dst, e)
  {
    var b := WithAssign(a, dst, e);
    assert b.assignments[|a.assignments|] == Assignment(dst, e);
  }

  lemma KeepsReg(a: Module, b: Module, assigns: seq<Assignment>, x: Signal, ty: BitType,
                 clock: Signal, reset: Signal, next: Expr)
    requires Emitted(a, b, assigns) && HasReg(a, x, ty, clock, reset, next)
    ensures HasReg(b, x, ty, clock, reset, next)
  {
  }

  lemma KeepsAssign(a: Module, b: Module, assigns: seq<Assignment>, dst: Signal, e: Expr)
    requires Emitted(a, b, assigns) && Assigns(a, dst, e)
    ensures Assigns(b, dst, e)
  {
    var i :| 0 <= i < |a.assignments| && a.assignments[i] == Assignment(dst, e);
    assert b.assignments[i] == Assignment(dst, e);
  }

  lemma KeepsChannel(a: Module, b: Module, assigns: seq<Assignment>, ch: Channel, fields: seq<BitType>)
    requires Emitted(a, b, assigns) && ChannelOk(a, ch, fields)
    ensures ChannelOk(b, ch, fields)
  {
  }

  lemma KeepsType(a: Module, b: Module, assigns: seq<Assignment>, x: Signal, ty: BitType)
    requires Emitted(a, b, assigns) && SignalType(a, x) == Some(ty)
    ensures SignalType(b, x) == Some(ty)
  {
  }

  // ----------------------------------------------------------- FIFO control

  /** The registers and handshakes of the FIFO control are in the module. */
  predicate ControlEmitted(m: Module, c: Control)
    requires c.depth > 0
  {
    && HasReg(m, c.count, UInt(c.CountWidth()), c.clock, c.reset, c.CountNext())
    && HasReg(m, c.wptr, UInt(c.PtrWidth()), c.clock, c.reset, c.PtrNext(c.WriteFire(), c.wptr))
    && HasReg(m, c.rptr, UInt(c.PtrWidth()), c.clock, c.reset, c.PtrNext(c.ReadFire(), c.rptr))
    && Assigns(m, c.input.ready, c.NotFull())
    && Assigns(m, c.output.valid, c.NonEmpty())
  }

  function ControlAssigns(c: Control): seq<Assignment> {
    [Assignment(c.input.ready, c.NotFull()), Assignment(c.output.valid, c.NonEmpty())]
  }

  /** The module with the control pushed into it. */
  function WithControl(m: Module, c: Control): Module
    requires c.depth > 0
  {
    m.(signals := m.signals
                  + [RegInfo(UInt(c.CountWidth()), c.clock, c.reset, c.CountNext()),
                     RegInfo(UInt(c.PtrWidth()), c.clock, c.reset, c.PtrNext(c.WriteFire(), c.wptr)),
                     RegInfo(UInt(c.PtrWidth()), c.clock, c.reset, c.PtrNext(c.ReadFire(), c.rptr))],
       assignments := m.assignments + ControlAssigns(c))
  }

  lemma ControlAdded(a: Module, c: Control)
    requires c.depth > 0 && c.count == a.Handle(|a.signals|)
    requires c.wptr == a.Handle(|a.signals| + 1) && c.rptr == a.Handle(|a.signals| + 2)
    ensures Emitted(a, WithControl(a, c), ControlAssigns(c)) && ControlEmitted(WithControl(a, c), c)
  {
    var b, n := WithControl(a, c), |a.assignments|;
    assert b.assignments[n] == ControlAssigns(c)[0] && b.assignments[n + 1] == ControlAssigns(c)[1];
  }

  lemma KeepsControl(a: Module, b: Module, assigns: seq<Assignment>, c: Control)
    requires c.depth > 0 && Emitted(a, b, assigns) && ControlEmitted(a, c)
    ensures ControlEmitted(b, c)
  {
    KeepsAssign(a, b, assigns, c.input.ready, c.NotFull());
    KeepsAssign(a, b, assigns, c.output.valid, c.NonEmpty());
  }

  lemma ControlEmittedHas(m: Module, c: Control, fields: seq<BitType>)
    requires 2 <= c.depth && c.depth + 1 < Pow2(64) && ControlEmitted(m, c)
    requires ChannelOk(m, c.input, fields) && ChannelOk(m, c.output, fields)
    requires SignalType(m, c.reset) == Some(UInt(1))
    ensures HasControl(m, c, fields)
  {
  }

  // ---------------------------------------------------------- register FIFO

  /** The next-state of a data register: load the field when the write pointer
      names the slot. */
  function LoadNext(c: Control, bits: Signal, x: Signal, index: nat): Expr
    requires c.depth > 0
  {
    Mux(And(c.WriteFire(), EqExpr(Ref(c.wptr), LitU(index, c.PtrWidth()))), Ref(bits), Ref(x))
  }

  /** The data registers of one payload field are in the module. */
  predicate EntriesEmitted(m: Module, c: Control, bits: Signal, ty: BitType, entries: seq<Signal>)
    requires c.depth > 0
  {
    forall i | 0 <= i < |entries| ::
      HasReg(m, entries[i], ty, c.clock, c.reset, LoadNext(c, bits, entries[i], i))
  }

  lemma EntryAdded(a: Module, c: Control, bits: Signal, ty: BitType, entries: seq<Signal>)
    requires c.depth > 0 && EntriesEmitted(a, c, bits, ty, entries)
    ensures
      var x := a.Handle(|a.signals|);
      var b := WithSignal(a, RegInfo(ty, c.clock, c.reset, LoadNext(c, bits, x, |entries|)));
      Emitted(a, b, []) && EntriesEmitted(b, c, bits, ty, entries + [x])
  {
    var x := a.Handle(|a.signals|);
    var next := LoadNext(c, bits, x, |entries|);
    RegAdded(a, ty, c.clock, c.reset, next);
    var b, all := WithSignal(a, RegInfo(ty, c.clock, c.reset, next)), entries + [x];
    forall i | 0 <= i < |all|
      ensures HasReg(b, all[i], ty, c.clock, c.reset, LoadNext(c, bits, all[i], i))
    {
      if i < |entries| {
        KeepsReg(a, b, [], entries[i], ty, c.clock, c.reset, LoadNext(c, bits, entries[i], i));
      }
    }
  }

  /** What drives one output field of a FIFO. */
  function EntryAssign(c: Control, output: Signal, entries: seq<Signal>): Assignment
    requires 0 < c.depth <= |entries|
  {
    Assignment(output, EntryMux(c.rptr, c.PtrWidth(), entries, c.depth))
  }

  /** The registers and the output of field j are in the module. */
  predicate FieldEmitted(m: Module, c: Control, w: Match, j: nat, entries: seq<Signal>)
    requires c.depth > 0 && j < |w.fields|
  {
    && |entries| == c.depth
    && EntriesEmitted(m, c, BitAt(w.input, j), w.fields[j], entries)
    && EntryAssign(c, BitAt(w.output, j), entries) in m.assignments
  }

  lemma KeepsField(a: Module, b: Module, assigns: seq<Assignment>, c: Control, w: Match, j: nat,
                   entries: seq<Signal>)
    requires c.depth > 0 && j < |w.fields| && Emitted(a, b, assigns) && FieldEmitted(a, c, w, j, entries)
    ensures FieldEmitted(b, c, w, j, entries)
  {
    var bits, ty, e := BitAt(w.input, j), w.fields[j], EntryAssign(c, BitAt(w.output, j), entries);
    KeepsAssign(a, b, assigns, e.dst, e.expr);
    forall i | 0 <= i < |entries|
      ensures HasReg(b, entries[i], ty, c.clock, c.reset, LoadNext(c, bits, entries[i], i))
    {
      KeepsReg(a, b, assigns, entries[i], ty, c.clock, c.reset, LoadNext(c, bits, entries[i], i));
    }
  }

  lemma EntriesToField(a: Module, c: Control, w: Match, j: nat, entries: seq<Signal>)
    requires c.depth > 0 && j < |w.fields| && |entries| == c.depth
    requires EntriesEmitted(a, c, BitAt(w.input, j), w.fields[j], entries)
    ensures
      var e := EntryAssign(c, BitAt(w.output, j), entries);
      && Emitted(a, WithAssign(a, e.dst, e.expr), [e])
      && FieldEmitted(WithAssign(a, e.dst, e.expr), c, w, j, entries)
  {
    var e := EntryAssign(c, BitAt(w.output, j), entries);
    AssignAdded(a, e.dst, e.expr);
  }

  /** The first fields are in the module. */
  predicate FieldsEmitted(m: Module, c: Control, w: Match, data: seq<seq<Signal>>)
    requires c.depth > 0
  {
    |data| <= |w.fields| && forall j | 0 <= j < |data| :: FieldEmitted(m, c, w, j, data[j])
  }

  predicate Square(c: Control, data: seq<seq<Signal>>) {
    forall j | 0 <= j < |data| :: |data[j]| == c.depth
  }

  function FieldAssigns(c: Control, w: Match, data: seq<seq<Signal>>): seq<Assignment>
    requires c.depth > 0 && Square(c, data)
  {
    seq(|data|, j requires 0 <= j < |data| => EntryAssign(c, BitAt(w.output, j), data[j]))
  }

  lemma FieldAdded(a: Module, b: Module, c: Control, w: Match, data: seq<seq<Signal>>, entries: seq<Signal>)
    requires c.depth > 0 && |data| < |w.fields| && FieldsEmitted(a, c, w, data)
    requires |entries| == c.depth && FieldEmitted(b, c, w, |data|, entries)
    requires Emitted(a, b, [EntryAssign(c, BitAt(w.output, |data|), entries)])
    ensures FieldsEmitted(b, c, w, data + [entries]) && Square(c, data) && Square(c, data + [entries])
    ensures FieldAssigns(c, w, data + [entries])
         == FieldAssigns(c, w, data) + [EntryAssign(c, BitAt(w.output, |data|), entries)]
  {
    var all := data + [entries];
    forall j | 0 <= j < |all|
      ensures FieldEmitted(b, c, w, j, all[j])
    {
      if j < |data| {
        assert FieldEmitted(a, c, w, j, data[j]);
        KeepsField(a, b, [EntryAssign(c, BitAt(w.output, |data|), entries)], c, w, j, data[j]);
      }
    }
    assert forall j | 0 <= j < |data| :: FieldEmitted(a, c, w, j, data[j]);
  }

  /** Everything `rv_fifo` assigns, in order. */
  function FifoAssigns(c: Control, w: Match, data: seq<seq<Signal>>): seq<Assignment>
    requires c.depth > 0 && Square(c, data)
  {
    ControlAssigns(c) + FieldAssigns(c, w, data)
  }

  lemma FieldMakesEntry(m: Module, c: Control, w: Match, data: seq<seq<Signal>>, k: nat)
    requires c.depth > 0 && FieldsEmitted(m, c, w, data) && k < |data| == |w.fields|
    requires ChannelOk(m, w.input, w.fields) && ChannelOk(m, w.output, w.fields)
    requires c.input == w.input && c.output == w.output
    ensures |data[k]| == c.depth
    ensures Assigns(m, c.output.bits[k], EntryMux(c.rptr, c.PtrWidth(), data[k], c.depth))
    ensures forall i | 0 <= i < c.depth ::
              HasReg(m, data[k][i], w.fields[k], c.clock, c.reset,
                     LoadNext(c, c.input.bits[k], data[k][i], i))
  {
    assert FieldEmitted(m, c, w, k, data[k]);
  }

  lemma FieldsMakeFifo(m: Module, c: Control, w: Match, data: seq<seq<Signal>>)
    requires 2 <= c.depth && c.depth + 1 < Pow2(64) && ControlEmitted(m, c)
    requires c.input == w.input && c.output == w.output
    requires ChannelOk(m, c.input, w.fields) && ChannelOk(m, c.output, w.fields)
    requires |data| == |w.fields| && FieldsEmitted(m, c, w, data)
    requires SignalType(m, c.reset) == Some(UInt(1))
    ensures HasFifo(m, FifoNet(c, w.fields, data))
  {
    var f := FifoNet(c, w.fields, data);
    ControlEmittedHas(m, c, w.fields);
    forall k | 0 <= k < |w.fields|
      ensures |f.data[k]| == c.depth
      ensures Assigns(m, c.output.bits[k], EntryMux(c.rptr, c.PtrWidth(), data[k], c.depth))
    {
      FieldMakesEntry(m, c, w, data, k);
    }
    forall k, i | 0 <= k < |w.fields| && 0 <= i < c.depth
      ensures HasReg(m, data[k][i], w.fields[k], c.clock, c.reset, f.DataNext(k, i))
    {
      FieldMakesEntry(m, c, w, data, k);
      assert f.DataNext(k, i) == LoadNext(c, c.input.bits[k], data[k][i], i);
    }
  }

  // ------------------------------------------------------------ memory FIFO

  /** What the memory holds: the payload, or the packed bundle. */
  function StoredType(w: Match): BitType
    requires w.packed || w.fields != []
  {
    if w.packed then UInt(PackedWidth(w.fields)) else w.fields[0]
  }

  function StoredData(w: Match): Expr {
    if w.packed then Concat(Refs(w.input.bits)) else Ref(BitAt(w.input, 0))
  }

  function StoredWrite(c: Control, w: Match, mem: Signal): MemoryWrite {
    MemoryWrite(mem, c.clock, c.WriteFire(), Ref(c.wptr), StoredData(w))
  }

  /** The payload has a field and fits a machine word. */
  predicate Storable(w: Match) {
    w.fields != [] && StoredType(w).width <= BITS
  }

  /** Memory writes name signals the module already has. */
  predicate WritesKnown(m: Module) {
    forall w | w in m.memoryWrites && w.mem.owner == m.id :: w.mem.id < |m.signals|
  }

  function ReadAssign(f: MemFifoNet): Assignment {
    Assignment(f.readData, MemRead(f.mem, Ref(f.c.rptr)))
  }

  /** The module with the storage pushed into it. */
  function WithStorage(m: Module, w: Match, f: MemFifoNet): Module
    requires f.c.depth > 0 && (w.packed || w.fields != [])
  {
    m.(signals := m.signals + [SignalInfo(StoredType(w), Mem(f.c.PtrWidth(), f.c.depth)),
                               SignalInfo(StoredType(w), Wire)],
       memoryWrites := m.memoryWrites + [StoredWrite(f.c, w, f.mem)],
       assignments := m.assignments + [ReadAssign(f)])
  }

  /** The memory, its read wire and its only new writer are in the module. */
  predicate StorageEmitted(m: Module, w: Match, f: MemFifoNet, before: seq<MemoryWrite>)
    requires f.c.depth > 0 && (w.packed || w.fields != [])
  {
    && m.Owns(f.mem) && m.signals[f.mem.id] == SignalInfo(StoredType(w), Mem(f.c.PtrWidth(), f.c.depth))
    && SignalType(m, f.readData) == Some(StoredType(w))
    && m.memoryWrites == before + [StoredWrite(f.c, w, f.mem)]
    && ReadAssign(f) in m.assignments
  }

  lemma StorageAdded(a: Module, w: Match, f: MemFifoNet)
    requires f.c.depth > 0 && (w.packed || w.fields != [])
    requires f.mem == a.Handle(|a.signals|) && f.readData == a.Handle(|a.signals| + 1)
    ensures Emitted(a, WithStorage(a, w, f), [ReadAssign(f)])
    ensures StorageEmitted(WithStorage(a, w, f), w, f, a.memoryWrites)
  {
    var b := WithStorage(a, w, f);
    assert b.assignments[|a.assignments|] == ReadAssign(f);
  }

  function FieldRead(w: Match, f: MemFifoNet, k: nat): Assignment
    requires k < |f.fields|
  {
    Assignment(BitAt(w.output, k), f.ReadField(k))
  }

  /** The first n output fields, unpacked from the read wire. */
  function FieldReads(w: Match, f: MemFifoNet, n: nat): seq<Assignment>
    requires n <= |f.fields|
  {
    seq(n, k requires 0 <= k < n => FieldRead(w, f, k))
  }

  lemma ReadAdded(a: Module, w: Match, f: MemFifoNet, n: nat)
    requires n < |f.fields|
    ensures
      var e := FieldRead(w, f, n);
      Emitted(a, WithAssign(a, e.dst, e.expr), [e])
    ensures FieldReads(w, f, n + 1) == FieldReads(w, f, n) + [FieldRead(w, f, n)]
  {
    AssignAdded(a, FieldRead(w, f, n).dst, FieldRead(w, f, n).expr);
  }

  lemma ReadsEmitted(a: Module, b: Module, w: Match, f: MemFifoNet, k: nat)
    requires Emitted(a, b, FieldReads(w, f, |f.fields|)) && k < |f.fields|
    ensures FieldRead(w, f, k) in b.assignments
  {
    assert b.assignments[|a.assignments| + k] == FieldReads(w, f, |f.fields|)[k];
  }

  /** Everything `rv_mem_fifo` assigns, in order. */
  function MemFifoAssigns(w: Match, f: MemFifoNet): seq<Assignment> {
    ControlAssigns(f.c) + [ReadAssign(f)] + FieldReads(w, f, |f.fields|)
  }

  lemma OneWriter(before: seq<MemoryWrite>, after: seq<MemoryWrite>, w: MemoryWrite)
    requires after == before + [w] && forall v | v in before :: v.mem != w.mem
    ensures w in after && forall v | v in after && v.mem == w.mem :: v == w
  {
    assert after[|before|] == w;
  }

  lemma FreshMemory(start: Module, m: Module, mem: Signal, assigns: seq<Assignment>)
    requires WritesKnown(start) && Emitted(start, m, assigns)
    requires mem.owner == start.id && |start.signals| <= mem.id
    ensures forall v | v in start.memoryWrites :: v.mem != mem
  {
  }

  lemma StillKnown(start: Module, m: Module, w: MemoryWrite, assigns: seq<Assignment>)
    requires WritesKnown(start) && Emitted(start, m, assigns) && m.Owns(w.mem)
    requires m.memoryWrites == start.memoryWrites + [w]
    ensures WritesKnown(m)
  {
    assert |start.signals| <= |m.signals|;
  }

  /** The writes of the stored word, as the memory FIFO describes it. */
  lemma StoredWriteIs(w: Match, f: MemFifoNet)
    requires f.c.input == w.input && f.packed == w.packed && Storable(w)
    requires |w.input.bits| == |w.fields|
    ensures StoredWrite(f.c, w, f.mem)
         == MemoryWrite(f.mem, f.c.clock, f.c.WriteFire(), Ref(f.c.wptr), f.WriteData())
  {
  }

  lemma StorageMakesFifo(start: Module, m: Module, w: Match, f: MemFifoNet, assigns: seq<Assignment>)
    requires 2 <= f.c.depth && f.c.depth + 1 < Pow2(64) && ControlEmitted(m, f.c)
    requires f.c.input == w.input && f.c.output == w.output
    requires ChannelOk(m, w.input, w.fields) && ChannelOk(m, w.output, w.fields)
    requires SignalType(m, f.c.reset) == Some(UInt(1))
    requires f.fields == w.fields && f.packed == w.packed && Storable(w)
    requires !w.packed ==> |w.fields| == 1
    requires WritesKnown(start) && Emitted(start, m, assigns) && |start.signals| <= f.mem.id
    requires StorageEmitted(m, w, f, start.memoryWrites)
    requires forall k | 0 <= k < |f.fields| :: FieldRead(w, f, k) in m.assignments
    ensures HasMemFifo(m, f) && WritesKnown(m)
  {
    StoredWriteIs(w, f);
    FreshMemory(start, m, f.mem, assigns);
    OneWriter(start.memoryWrites, m.memoryWrites, StoredWrite(f.c, w, f.mem));
    ControlEmittedHas(m, f.c, w.fields);
    StillKnown(start, m, StoredWrite(f.c, w, f.mem), assigns);
    forall k | 0 <= k < |f.fields|
      ensures Assigns(m, f.c.output.bits[k], f.ReadField(k))
    {
      assert FieldRead(w, f, k) in m.assignments;
    }
  }

  // ------------------------------------------------------------ skid buffer

  predicate SkidEmitted(m: Module, f: SkidNet) {
    && HasReg(m, f.full, UInt(1), f.clock, f.reset, f.FullNext())
    && Assigns(m, f.input.ready, Or(Not(Ref(f.full)), Ref(f.output.ready)))
    && Assigns(m, f.output.valid, Or(Ref(f.full), Ref(f.input.valid)))
  }

  function SkidHandshake(f: SkidNet): seq<Assignment> {
    [Assignment(f.input.ready, Or(Not(Ref(f.full)), Ref(f.output.ready))),
     Assignment(f.output.valid, Or(Ref(f.full), Ref(f.input.valid)))]
  }

  function WithSkid(m: Module, f: SkidNet): Module {
    m.(signals := m.signals + [RegInfo(UInt(1), f.clock, f.reset, f.FullNext())],
       assignments := m.assignments + SkidHandshake(f))
  }

  lemma SkidAdded(a: Module, f: SkidNet)
    requires f.full == a.Handle(|a.signals|)
    ensures Emitted(a, WithSkid(a, f), SkidHandshake(f)) && SkidEmitted(WithSkid(a, f), f)
  {
    var b, n := WithSkid(a, f), |a.assignments|;
    assert b.assignments[n] == SkidHandshake(f)[0] && b.assignments[n + 1] == SkidHandshake(f)[1];
  }

  lemma KeepsSkid(a: Module, b: Module, assigns: seq<Assignment>, f: SkidNet)
    requires Emitted(a, b, assigns) && SkidEmitted(a, f)
    ensures SkidEmitted(b, f)
  {
    KeepsAssign(a, b, assigns, f.input.ready, Or(Not(Ref(f.full)), Ref(f.output.ready)));
    KeepsAssign(a, b, assigns, f.output.valid, Or(Ref(f.full), Ref(f.input.valid)));
  }

  function HeldInfo(f: SkidNet, x: Signal, bits: Signal, ty: BitType): SignalInfo {
    RegInfo(ty, f.clock, f.reset, Mux(f.Load(), Ref(bits), Ref(x)))
  }

  function HeldAssign(f: SkidNet, x: Signal, bits: Signal, output: Signal): Assignment {
    Assignment(output, Mux(Ref(f.full), Ref(x), Ref(bits)))
  }

  /** The holding register and the bypass of field j are in the module. */
  predicate HeldEmitted(m: Module, f: SkidNet, w: Match, j: nat, x: Signal)
    requires j < |w.fields|
  {
    && m.Owns(x) && m.signals[x.id] == HeldInfo(f, x, BitAt(w.input, j), w.fields[j])
    && HeldAssign(f, x, BitAt(w.input, j), BitAt(w.output, j)) in m.assignments
  }

  predicate AllHeld(m: Module, f: SkidNet, w: Match, held: seq<Signal>) {
    |held| <= |w.fields| && forall j | 0 <= j < |held| :: HeldEmitted(m, f, w, j, held[j])
  }

  function HeldAssigns(f: SkidNet, w: Match, held: seq<Signal>): seq<Assignment> {
    seq(|held|, j requires 0 <= j < |held| =>
      HeldAssign(f, held[j], BitAt(w.input, j), BitAt(w.output, j)))
  }

  lemma KeepsHeld(a: Module, b: Module, assigns: seq<Assignment>, f: SkidNet, w: Match, j: nat, x: Signal)
    requires j < |w.fields| && Emitted(a, b, assigns) && HeldEmitted(a, f, w, j, x)
    ensures HeldEmitted(b, f, w, j, x)
  {
    var e := HeldAssign(f, x, BitAt(w.input, j), BitAt(w.output, j));
    KeepsAssign(a, b, assigns, e.dst, e.expr);
  }

  /** The module with one more holding register and bypass. */
  function WithHeld(m: Module, f: SkidNet, w: Match, j: nat): Module
    requires j < |w.fields|
  {
    var x, bits := m.Handle(|m.signals|), BitAt(w.input, j);
    var e := HeldAssign(f, x, bits, BitAt(w.output, j));
    WithAssign(WithSignal(m, HeldInfo(f, x, bits, w.fields[j])), e.dst, e.expr)
  }

  lemma HeldAdded(a: Module, f: SkidNet, w: Match, held: seq<Signal>)
    requires |held| < |w.fields| && AllHeld(a, f, w, held)
    ensures
      var x := a.Handle(|a.signals|);
      var b := WithHeld(a, f, w, |held|);
      && AllHeld(b, f, w, held + [x])
      && Emitted(a, b, [HeldAssign(f, x, BitAt(w.input, |held|), BitAt(w.output, |held|))])
      && HeldAssigns(f, w, held + [x])
         == HeldAssigns(f, w, held) + [HeldAssign(f, x, BitAt(w.input, |held|), BitAt(w.output, |held|))]
  {
    var x, j := a.Handle(|a.signals|), |held|;
    var e := HeldAssign(f, x, BitAt(w.input, j), BitAt(w.output, j));
    var b, all := WithHeld(a, f, w, j), held + [x];
    assert b.assignments[|a.assignments|] == e;
    forall i | 0 <= i < |all|
      ensures HeldEmitted(b, f, w, i, all[i])
    {
      if i < j {
        KeepsHeld(a, b, [e], f, w, i, held[i]);
      }
    }
  }

  /** Everything `rv_skid_buffer` assigns, in order. */
  function SkidAssigns(f: SkidNet, w: Match, held: seq<Signal>): seq<Assignment> {
    SkidHandshake(f) + HeldAssigns(f, w, held)
  }

  lemma SkidAssignsHeld(f: SkidNet, w: Match, held: seq<Signal>)
    ensures SkidAssigns(f.(held := held), w, held) == SkidAssigns(f, w, held)
  {
  }

  lemma FieldsMakeSkid(m: Module, f: SkidNet, w: Match, held: seq<Signal>)
    requires SkidEmitted(m, f) && f.fields == w.fields
    requires f.input == w.input && f.output == w.output
    requires ChannelOk(m, w.input, w.fields) && ChannelOk(m, w.output, w.fields)
    requires SignalType(m, f.reset) == Some(UInt(1)) && |held| == |w.fields|
    requires AllHeld(m, f, w, held)
    ensures HasSkid(m, f.(held := held))
  {
    var g := f.(held := held);
    forall k | 0 <= k < |g.fields|
      ensures HasReg(m, g.held[k], g.fields[k], g.clock, g.reset, g.HeldNext(k))
      ensures Assigns(m, g.output.bits[k], g.OutBits(k))
    {
      assert HeldEmitted(m, f, w, k, held[k]);
    }
  }

  // ------------------------------------------------------------- rv_connect

  function ConnectHandshake(w: Match): seq<Assignment> {
    [Assignment(w.output.valid, Ref(w.input.valid)), Assignment(w.input.ready, Ref(w.output.ready))]
  }

  function BitAssigns(w: Match, n: nat): seq<Assignment> {
    seq(n, k requires 0 <= k < n => Assignment(BitAt(w.output, k), Ref(BitAt(w.input, k))))
  }

  /** Everything `rv_connect` assigns, in order. */
  function ConnectAssigns(w: Match): seq<Assignment> {
    ConnectHandshake(w) + BitAssigns(w, |w.fields|)
  }

  lemma ConnectsWires(a: Module, m: Module, w: Match)
    requires Emitted(a, m, ConnectAssigns(w))
    requires ChannelOk(m, w.input, w.fields) && ChannelOk(m, w.output, w.fields)
    ensures HasWires(m, WiresNet(w.input, w.output, w.fields))
  {
    var n, all := |a.assignments|, ConnectAssigns(w);
    assert m.assignments[n] == all[0] && m.assignments[n + 1] == all[1];
    forall k | 0 <= k < |w.fields|
      ensures Assigns(m, w.output.bits[k], Ref(w.input.bits[k]))
    {
      assert m.assignments[n + 2 + k] == all[2 + k] == BitAssigns(w, |w.fields|)[k];
    }
  }
}
