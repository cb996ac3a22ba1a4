/** The module builder and its ready/valid generators.  The builder pushes into
    the module in place; every generator is proved to leave exactly the netlist
    that the refinement theorems are about. */
module Builder {
  import opened Words
  import opened Rtl
  import opened ReadyValid
  import opened Emission

  datatype Role = Source | Sink

  datatype Leaf = Leaf(path: string, ty: BitType)

  datatype Payload = Scalar(ty: BitType) | Bundle(leaves: seq<Leaf>)

  /** A ready/valid interface of the module. */
  datatype ReadyValidRef = ReadyValidRef(role: Role, channel: Channel, payload: Payload)

  datatype BuilderError =
    | E_DEPTH | E_ROLE | E_PAYLOAD_TYPE | E_PAYLOAD_KIND | E_FIELD_MISSING | E_FIELD_EXTRA
    | E_REG_HANDLE | E_REG_KIND | E_RESET_KIND | E_STATE_RESET_VARIANT | E_STATE_NEXT_VARIANT

  // ------------------------------------------------------ payload matching

  predicate HasPath(leaves: seq<Leaf>, path: string) {
    exists i | 0 <= i < |leaves| :: leaves[i].path == path
  }

  /** The position of the last leaf with a path, as a map collected from the list
      keeps it. */
  function PathIndex(leaves: seq<Leaf>, path: string): (i: nat)
    requires HasPath(leaves, path)
    ensures i < |leaves| && leaves[i].path == path
    decreases |leaves|
  {
    if leaves[|leaves| - 1].path == path then |leaves| - 1
    else PathIndex(leaves[..|leaves| - 1], path)
  }

  /** What the payload check reports for two bundles. */
  function BundleErrors(input: seq<Leaf>, output: seq<Leaf>): seq<BuilderError> {
    Missing(input, output, |output|) + Extra(input, output, |input|)
    + Mistyped(input, output, |output|)
  }

  function Missing(input: seq<Leaf>, output: seq<Leaf>, n: nat): seq<BuilderError>
    requires n <= |output|
  {
    if n == 0 then []
    else Missing(input, output, n - 1) + if HasPath(input, output[n - 1].path) then [] else [E_FIELD_MISSING]
  }

  function Extra(input: seq<Leaf>, output: seq<Leaf>, n: nat): seq<BuilderError>
    requires n <= |input|
  {
    if n == 0 then []
    else Extra(input, output, n - 1) + if HasPath(output, input[n - 1].path) then [] else [E_FIELD_EXTRA]
  }

  function Mistyped(input: seq<Leaf>, output: seq<Leaf>, n: nat): seq<BuilderError>
    requires n <= |output|
  {
    if n == 0 then []
    else
      Mistyped(input, output, n - 1)
      + if HasPath(input, output[n - 1].path)
           && input[PathIndex(input, output[n - 1].path)].ty != output[n - 1].ty
        then [E_PAYLOAD_TYPE] else []
  }

  lemma {:induction false} NoMissing(input: seq<Leaf>, output: seq<Leaf>, n: nat)
    requires n <= |output| && Missing(input, output, n) == [] && Mistyped(input, output, n) == []
    ensures forall k | 0 <= k < n ::
              HasPath(input, output[k].path)
              && input[PathIndex(input, output[k].path)].ty == output[k].ty
  {
    if n > 0 {
      NoMissing(input, output, n - 1);
    }
  }

  datatype Matching = Matched(m: Match) | Rejected(errors: seq<BuilderError>)

  /** The payload checks shared by the ready/valid generators. */
  function MatchPayloads(input: ReadyValidRef, output: ReadyValidRef): (r: Matching)
    ensures r.Rejected? ==> r.errors != []
    ensures r.Matched? ==>
              && r.m.input.valid == input.channel.valid && r.m.input.ready == input.channel.ready
              && r.m.output == output.channel && (!r.m.packed ==> |r.m.fields| == 1)
  {
    match (input.payload, output.payload)
    case (Scalar(a), Scalar(b)) =>
      if a != b then Rejected([E_PAYLOAD_TYPE])
      else Matched(Match(input.channel, output.channel, [a], false))
    case (Bundle(a), Bundle(b)) =>
      var errors := BundleErrors(a, b);
      if errors != [] then Rejected(errors)
      else
        NoMissing(a, b, |b|);
        Matched(Match(
          Channel(input.channel.valid, input.channel.ready,
                  seq(|b|, k requires 0 <= k < |b| => BitAt(input.channel, PathIndex(a, b[k].path)))),
          output.channel, LeafTypes(b), true))
    case _ => Rejected([E_PAYLOAD_KIND])
  }

  function LeafTypes(leaves: seq<Leaf>): (tys: seq<BitType>)
    ensures |tys| == |leaves|
    ensures forall k | 0 <= k < |leaves| :: tys[k] == leaves[k].ty
  {
    seq(|leaves|, k requires 0 <= k < |leaves| => leaves[k].ty)
  }

  function PayloadTypes(p: Payload): seq<BitType> {
    match p
    case Scalar(ty) => [ty]
    case Bundle(leaves) => LeafTypes(leaves)
  }

  // ---------------------------------------------- which field feeds which

  /** Leaf j is the last of its path. */
  predicate LastOf(leaves: seq<Leaf>, path: string, j: nat) {
    j < |leaves| && leaves[j].path == path && forall i | j < i < |leaves| :: leaves[i].path != path
  }

  predicate TypeAgrees(input: seq<Leaf>, leaf: Leaf) {
    forall j | 0 <= j < |input| && LastOf(input, leaf.path, j) :: input[j].ty == leaf.ty
  }

  /** Every path of the first bundle is one of the second. */
  predicate AllThere(a: seq<Leaf>, b: seq<Leaf>) {
    forall k | 0 <= k < |a| :: There(a[k], b)
  }

  predicate There(leaf: Leaf, b: seq<Leaf>) {
    exists j | 0 <= j < |b| :: b[j].path == leaf.path
  }

  /** The payloads can be joined: equal scalars, or bundles with the same paths and
      equal types path by path. */
  predicate PayloadsAgree(a: Payload, b: Payload) {
    match (a, b)
    case (Scalar(ty), Scalar(other)) => ty == other
    case (Bundle(input), Bundle(output)) =>
      && AllThere(output, input) && AllThere(input, output)
      && (forall k | 0 <= k < |output| :: TypeAgrees(input, output[k]))
    case _ => false
  }

  /** The stage's input channel carries, for every field of the output, the signal of
      the input field of the same path and type. */
  predicate FieldsPaired(input: ReadyValidRef, output: ReadyValidRef, i: Channel, o: Channel) {
    && i.valid == input.channel.valid && i.ready == input.channel.ready && o == output.channel
    && match (input.payload, output.payload)
       case (Bundle(a), Bundle(b)) =>
         |i.bits| == |b| && forall k | 0 <= k < |b| :: FieldPaired(a, b[k], input.channel, i.bits[k])
       case _ => i.bits == input.channel.bits
  }

  /** The calls a stage between two interfaces can be built for. */
  predicate Joinable(input: ReadyValidRef, output: ReadyValidRef) {
    input.role == Sink && output.role == Source && PayloadsAgree(input.payload, output.payload)
  }

  predicate FieldPaired(a: seq<Leaf>, leaf: Leaf, channel: Channel, x: Signal) {
    exists j: nat | j < |a| :: LastOf(a, leaf.path, j) && a[j].ty == leaf.ty && x == BitAt(channel, j)
  }

  lemma {:induction false} IndexIsLast(leaves: seq<Leaf>, path: string)
    requires HasPath(leaves, path)
    ensures LastOf(leaves, path, PathIndex(leaves, path))
    decreases |leaves|
  {
    if leaves[|leaves| - 1].path != path {
      IndexIsLast(leaves[..|leaves| - 1], path);
    }
  }

  lemma {:induction false} MissingExactly(input: seq<Leaf>, output: seq<Leaf>, n: nat)
    requires n <= |output|
    ensures Missing(input, output, n) == [] <==> forall k | 0 <= k < n :: HasPath(input, output[k].path)
  {
    if n > 0 {
      MissingExactly(input, output, n - 1);
    }
  }

  lemma {:induction false} ExtraExactly(input: seq<Leaf>, output: seq<Leaf>, n: nat)
    requires n <= |input|
    ensures Extra(input, output, n) == [] <==> forall j | 0 <= j < n :: HasPath(output, input[j].path)
  {
    if n > 0 {
      ExtraExactly(input, output, n - 1);
    }
  }

  lemma OneTypeAgrees(input: seq<Leaf>, leaf: Leaf)
    ensures TypeAgrees(input, leaf)
            <==> !(HasPath(input, leaf.path) && input[PathIndex(input, leaf.path)].ty != leaf.ty)
  {
    if HasPath(input, leaf.path) {
      IndexIsLast(input, leaf.path);
    }
  }

  lemma {:induction false} MistypedExactly(input: seq<Leaf>, output: seq<Leaf>, n: nat)
    requires n <= |output|
    ensures Mistyped(input, output, n) == [] <==> forall k | 0 <= k < n :: TypeAgrees(input, output[k])
  {
    if n > 0 {
      MistypedExactly(input, output, n - 1);
      OneTypeAgrees(input, output[n - 1]);
    }
  }

  /** The payload check accepts exactly the payloads that agree. */
  lemma AcceptedExactly(input: ReadyValidRef, output: ReadyValidRef)
    ensures MatchPayloads(input, output).Matched? <==> PayloadsAgree(input.payload, output.payload)
    ensures EndsAccepted(input, output) <==> Joinable(input, output)
  {
    if input.payload.Bundle? && output.payload.Bundle? {
      BundlesAgree(input.payload.leaves, output.payload.leaves);
    }
  }

  lemma BundlesAgree(a: seq<Leaf>, b: seq<Leaf>)
    ensures BundleErrors(a, b) == [] <==> PayloadsAgree(Bundle(a), Bundle(b))
  {
    MissingExactly(a, b, |b|);
    ExtraExactly(a, b, |a|);
    MistypedExactly(a, b, |b|);
    NoErrors(Missing(a, b, |b|), Extra(a, b, |a|), Mistyped(a, b, |b|));
    PathsCovered(a, b);
    PathsCovered(b, a);
  }

  lemma NoErrors(a: seq<BuilderError>, b: seq<BuilderError>, c: seq<BuilderError>)
    ensures a + b + c == [] <==> a == [] && b == [] && c == []
  {
    assert |a + b + c| == |a| + |b| + |c|;
  }

  lemma PathsCovered(a: seq<Leaf>, b: seq<Leaf>)
    ensures (forall k | 0 <= k < |b| :: HasPath(a, b[k].path)) <==> AllThere(b, a)
  {
    forall k | 0 <= k < |b|
      ensures HasPath(a, b[k].path) <==> There(b[k], a)
    {
      ThereIs(b[k], a);
    }
  }

  lemma ThereIs(leaf: Leaf, b: seq<Leaf>)
    ensures HasPath(b, leaf.path) <==> There(leaf, b)
  {
  }

  lemma ConnectsKnown(start: Module, m: Module, input: ReadyValidRef, output: ReadyValidRef)
    requires MatchPayloads(input, output).Matched?
    requires Emitted(start, m, ConnectAssigns(MatchPayloads(input, output).m))
    ensures
      var w := MatchPayloads(input, output).m;
      RefOk(start, input) && RefOk(start, output) ==> HasWires(m, WiresNet(w.input, w.output, w.fields))
  {
    var w := MatchPayloads(input, output).m;
    if RefOk(start, input) && RefOk(start, output) {
      MatchOk(start, input, output);
      KeepsChannel(start, m, ConnectAssigns(w), w.input, w.fields);
      KeepsChannel(start, m, ConnectAssigns(w), w.output, w.fields);
      ConnectsWires(start, m, w);
    }
  }

  /** And it pairs the fields by path. */
  lemma MatchedPairs(input: ReadyValidRef, output: ReadyValidRef)
    requires MatchPayloads(input, output).Matched?
    ensures
      var w := MatchPayloads(input, output).m;
      FieldsPaired(input, output, w.input, w.output)
  {
    if input.payload.Bundle? {
      var a, b, w := input.payload.leaves, output.payload.leaves, MatchPayloads(input, output).m;
      NoMissing(a, b, |b|);
      forall k | 0 <= k < |b|
        ensures FieldPaired(a, b[k], input.channel, w.input.bits[k])
      {
        IndexIsLast(a, b[k].path);
        assert w.input.bits[k] == BitAt(input.channel, PathIndex(a, b[k].path));
      }
    }
  }

  /** The interface belongs to the module. */
  predicate RefOk(m: Module, r: ReadyValidRef) {
    ChannelOk(m, r.channel, PayloadTypes(r.payload))
  }

  /** Matching keeps the payload types field by field. */
  lemma MatchOk(m: Module, input: ReadyValidRef, output: ReadyValidRef)
    requires RefOk(m, input) && RefOk(m, output) && MatchPayloads(input, output).Matched?
    ensures
      var w := MatchPayloads(input, output).m;
      ChannelOk(m, w.input, w.fields) && ChannelOk(m, w.output, w.fields)
  {
    if input.payload.Bundle? {
      var a, b := input.payload.leaves, output.payload.leaves;
      NoMissing(a, b, |b|);
    }
  }

  /** The calls every generator accepts: an accepting end, an offering end, and
      payloads that match. */
  predicate EndsAccepted(input: ReadyValidRef, output: ReadyValidRef) {
    input.role.Sink? && output.role.Source? && MatchPayloads(input, output).Matched?
  }

  function EndsErrors(input: ReadyValidRef, output: ReadyValidRef): (errors: seq<BuilderError>)
    requires !EndsAccepted(input, output)
    ensures errors != []
  {
    if !input.role.Sink? || !output.role.Source? then [E_ROLE]
    else MatchPayloads(input, output).errors
  }

  /** The calls a FIFO generator accepts. */
  predicate FifoAccepted(input: ReadyValidRef, output: ReadyValidRef, depth: nat) {
    2 <= depth && depth + 1 < Pow2(64) && EndsAccepted(input, output)
  }

  /** What is reported about a call it does not accept: the first failing check. */
  function FifoErrors(input: ReadyValidRef, output: ReadyValidRef, depth: nat): (errors: seq<BuilderError>)
    requires !FifoAccepted(input, output, depth)
    ensures errors != []
  {
    if depth < 2 || depth + 1 >= Pow2(64) then [E_DEPTH] else EndsErrors(input, output)
  }

  /** Both ends, and a one-bit reset, belong to the module. */
  predicate EndsOk(m: Module, input: ReadyValidRef, output: ReadyValidRef, reset: Signal) {
    RefOk(m, input) && RefOk(m, output) && SignalType(m, reset) == Some(UInt(1))
  }

  lemma KeepsEnds(a: Module, b: Module, assigns: seq<Assignment>, input: ReadyValidRef,
                  output: ReadyValidRef, reset: Signal)
    requires Emitted(a, b, assigns) && EndsOk(a, input, output, reset) && EndsAccepted(input, output)
    ensures
      var w := MatchPayloads(input, output).m;
      && ChannelOk(b, w.input, w.fields) && ChannelOk(b, w.output, w.fields)
      && SignalType(b, reset) == Some(UInt(1))
  {
    MatchOk(a, input, output);
    var w := MatchPayloads(input, output).m;
    KeepsChannel(a, b, assigns, w.input, w.fields);
    KeepsChannel(a, b, assigns, w.output, w.fields);
    KeepsType(a, b, assigns, reset, UInt(1));
  }

  lemma MatchShape(input: ReadyValidRef, output: ReadyValidRef)
    requires MatchPayloads(input, output).Matched?
    ensures
      var w := MatchPayloads(input, output).m;
      && (!w.packed ==> |w.fields| == 1)
      && |w.fields| == |PayloadTypes(output.payload)|
  {
  }

  /** The control is wired to the matched channels, clock and reset. */
  predicate FifoOn(c: Control, input: ReadyValidRef, output: ReadyValidRef,
                   clock: Signal, reset: Signal, depth: nat)
    requires MatchPayloads(input, output).Matched?
  {
    var w := MatchPayloads(input, output).m;
    c.input == w.input && c.output == w.output && c.clock == clock && c.reset == reset
    && c.depth == depth
  }

  predicate RestylesReset(before: Option<Reset>, r: Reset) {
    before.Some? && (before.value.kind != r.kind || before.value.polarity != r.polarity)
  }

  /** The buffer is wired to the matched channels, clock and reset. */
  predicate SkidOn(f: SkidNet, input: ReadyValidRef, output: ReadyValidRef, clock: Signal, reset: Signal)
    requires MatchPayloads(input, output).Matched?
  {
    var w := MatchPayloads(input, output).m;
    f.input == w.input && f.output == w.output && f.fields == w.fields
    && f.clock == clock && f.reset == reset
  }

  /** The read wire is a new wire of the module. */
  predicate ReadWireAt(f: MemFifoNet, base: nat, m: Module) {
    m.Owns(f.readData) && base <= f.readData.id && m.signals[f.readData.id].kind.Wire?
  }

  // ---------------------------------------------------------------- channels

  function Handles(id: nat, base: nat, n: nat): (xs: seq<Signal>)
    ensures |xs| == n && forall k | 0 <= k < n :: xs[k] == Signal(id, base + k)
  {
    seq(n, k requires 0 <= k < n => Signal(id, base + k))
  }

  function Infos(tys: seq<BitType>, kind: SignalKind): (infos: seq<SignalInfo>)
    ensures |infos| == |tys| && forall k | 0 <= k < |tys| :: infos[k] == SignalInfo(tys[k], kind)
  {
    seq(|tys|, k requires 0 <= k < |tys| => SignalInfo(tys[k], kind))
  }

  function Forward(role: Role): SignalKind {
    if role.Source? then Output else Input
  }

  function Backward(role: Role): SignalKind {
    if role.Source? then Input else Output
  }

  /** The ports of a channel, in order. */
  function ChannelInfos(payload: Payload, role: Role): seq<SignalInfo> {
    [SignalInfo(UInt(1), Forward(role)), SignalInfo(UInt(1), Backward(role))]
    + Infos(PayloadTypes(payload), Forward(role))
  }

  /** The handles of a channel whose ports start at `base`. */
  function ChannelAt(id: nat, base: nat, n: nat): Channel {
    Channel(Signal(id, base), Signal(id, base + 1), Handles(id, base + 2, n))
  }

  /** Control, storage and reads put together. */
  lemma StoredThrough(start: Module, controlled: Module, stored: Module, m: Module, w: Match, f: MemFifoNet)
    requires f.c.depth > 0 && (w.packed || w.fields != [])
    requires Emitted(start, controlled, ControlAssigns(f.c)) && ControlEmitted(controlled, f.c)
    requires controlled.memoryWrites == start.memoryWrites
    requires Emitted(controlled, stored, [ReadAssign(f)])
    requires StorageEmitted(stored, w, f, controlled.memoryWrites)
    requires Emitted(stored, m, FieldReads(w, f, |f.fields|)) && m.memoryWrites == stored.memoryWrites
    ensures Emitted(start, m, MemFifoAssigns(w, f))
    ensures ControlEmitted(m, f.c) && StorageEmitted(m, w, f, start.memoryWrites)
    ensures forall k | 0 <= k < |f.fields| :: FieldRead(w, f, k) in m.assignments
  {
    EmittedTrans(start, controlled, stored, ControlAssigns(f.c), [ReadAssign(f)]);
    EmittedTrans(start, stored, m, ControlAssigns(f.c) + [ReadAssign(f)], FieldReads(w, f, |f.fields|));
    KeepsControl(controlled, stored, [ReadAssign(f)], f.c);
    KeepsControl(stored, m, FieldReads(w, f, |f.fields|), f.c);
    KeepsAssign(stored, m, FieldReads(w, f, |f.fields|), ReadAssign(f).dst, ReadAssign(f).expr);
    forall k | 0 <= k < |f.fields|
      ensures FieldRead(w, f, k) in m.assignments
    {
      ReadsEmitted(stored, m, w, f, k);
    }
  }

  // --------------------------------------------------------------- builder

  class ModuleBuilder {
    const id: nat
    var signals: seq<SignalInfo>
    var assignments: seq<Assignment>
    var memoryWrites: seq<MemoryWrite>
    var diagnostics: seq<BuilderError>

    constructor (id: nat)
      ensures Built() == Module(id, [], [], [], [], []) && diagnostics == []
    {
      this.id := id;
      signals, assignments, memoryWrites, diagnostics := [], [], [], [];
    }

    /** The module so far. */
    function Built(): Module
      reads this
    {
      Module(id, signals, assignments, memoryWrites, [], [])
    }

    /** `add_signal` */
    method AddSignal(ty: BitType, kind: SignalKind) returns (x: Signal)
      modifies this`signals
      ensures x == Signal(id, |old(signals)|)
      ensures Built() == WithSignal(old(Built()), SignalInfo(ty, kind))
    {
      x := Signal(id, |signals|);
      signals := signals + [SignalInfo(ty, kind)];
    }

    predicate IsReg(x: Signal)
      reads this
    {
      x.owner == id && x.id < |signals| && signals[x.id].kind.Reg?
    }

    /** `clock` */
    method Clock(x: Signal, clock: Signal)
      modifies this`signals, this`diagnostics
      ensures old(IsReg(x)) ==>
                && signals == old(signals)[x.id := SignalInfo(old(signals[x.id].ty),
                                old(signals[x.id].kind).(clock := Some(clock)))]
                && diagnostics == old(diagnostics)
      ensures !old(IsReg(x)) ==> signals == old(signals) && |diagnostics| == |old(diagnostics)| + 1
    {
      if x.owner != id || x.id >= |signals| {
        diagnostics := diagnostics + [E_REG_HANDLE];
      } else if signals[x.id].kind.Reg? {
        signals := signals[x.id := signals[x.id].(kind := signals[x.id].kind.(clock := Some(clock)))];
      } else {
        diagnostics := diagnostics + [E_REG_KIND];
      }
    }

    /** `set_reset`, behind `reset`, `reset_low`, `async_reset` and
        `async_reset_low`: a later call wins, and a change of style is reported. */
    method SetReset(x: Signal, r: Reset)
      modifies this`signals, this`diagnostics
      ensures old(IsReg(x)) ==>
                && signals == old(signals)[x.id := SignalInfo(old(signals[x.id].ty),
                                old(signals[x.id].kind).(reset := Some(r)))]
                && diagnostics
                   == old(diagnostics)
                      + if RestylesReset(old(signals[x.id].kind.reset), r) then [E_RESET_KIND] else []
      ensures !old(IsReg(x)) ==> signals == old(signals) && |diagnostics| == |old(diagnostics)| + 1
    {
      if x.owner != id || x.id >= |signals| {
        diagnostics := diagnostics + [E_REG_HANDLE];
      } else if signals[x.id].kind.Reg? {
        var restyled := RestylesReset(signals[x.id].kind.reset, r);
        signals := signals[x.id := signals[x.id].(kind := signals[x.id].kind.(reset := Some(r)))];
        if restyled {
          diagnostics := diagnostics + [E_RESET_KIND];
        }
      } else {
        diagnostics := diagnostics + [E_REG_KIND];
      }
    }

    /** `next` */
    method Next(x: Signal, e: Expr)
      modifies this`signals, this`diagnostics
      ensures old(IsReg(x)) ==>
                && signals == old(signals)[x.id := SignalInfo(old(signals[x.id].ty),
                                old(signals[x.id].kind).(next := Some(e)))]
                && diagnostics == old(diagnostics)
      ensures !old(IsReg(x)) ==> signals == old(signals) && |diagnostics| == |old(diagnostics)| + 1
    {
      if x.owner != id || x.id >= |signals| {
        diagnostics := diagnostics + [E_REG_HANDLE];
      } else if signals[x.id].kind.Reg? {
        signals := signals[x.id := signals[x.id].(kind := signals[x.id].kind.(next := Some(e)))];
      } else {
        diagnostics := diagnostics + [E_REG_KIND];
      }
    }

    /** `assign` */
    method Assign(dst: Signal, e: Expr)
      modifies this`assignments
      ensures Built() == WithAssign(old(Built()), dst, e)
    {
      assignments := assignments + [Assignment(dst, e)];
    }

    /** `mem_write` */
    method MemWrite(mem: Signal, clock: Signal, enable: Expr, addr: Expr, data: Expr)
      modifies this`memoryWrites
      ensures Built() == WithWrite(old(Built()), MemoryWrite(mem, clock, enable, addr, data))
    {
      memoryWrites := memoryWrites + [MemoryWrite(mem, clock, enable, addr, data)];
    }

    /** A register with its clock and its synchronous reset to 0. */
    method PlainReg(ty: BitType, clock: Signal, reset: Signal) returns (x: Signal)
      modifies this`signals, this`diagnostics
      ensures x == Signal(id, |old(signals)|) && diagnostics == old(diagnostics)
      ensures signals == old(signals)
              + [SignalInfo(ty, Reg(Some(clock), Some(Reset(reset, 0, Sync, ActiveHigh)), None))]
    {
      x := AddSignal(ty, Reg(None, None, None));
      Clock(x, clock);
      SetReset(x, Reset(reset, 0, Sync, ActiveHigh));
    }

    /** A register with clock, reset and next state. */
    method EmitReg(ty: BitType, clock: Signal, reset: Signal, e: Expr) returns (x: Signal)
      modifies this`signals, this`diagnostics
      ensures x == Signal(id, |old(signals)|) && diagnostics == old(diagnostics)
      ensures Built() == WithSignal(old(Built()), RegInfo(ty, clock, reset, e))
    {
      x := PlainReg(ty, clock, reset);
      Next(x, e);
    }

    // ---------------------------------------------------------- channels

    /** The ports of a ready/valid interface: valid, ready and the payload. */
    method AddChannel(payload: Payload, role: Role) returns (r: ReadyValidRef)
      modifies this`signals
      ensures r.role == role && r.payload == payload
      ensures Built() == old(Built()).(signals := old(signals) + ChannelInfos(payload, role))
      ensures r.channel == ChannelAt(id, |old(signals)|, |PayloadTypes(payload)|)
    {
      var forward, backward := Forward(role), Backward(role);
      var valid := AddSignal(UInt(1), forward);
      var ready := AddSignal(UInt(1), backward);
      var tys := PayloadTypes(payload);
      var bits: seq<Signal> := [];
      var n := |signals|;
      while |bits| < |tys|
        invariant |bits| <= |tys| && bits == Handles(id, n, |bits|)
        invariant Built() == old(Built()).(signals := old(signals)
                    + [SignalInfo(UInt(1), forward), SignalInfo(UInt(1), backward)]
                    + Infos(tys[..|bits|], forward))
      {
        var x := AddSignal(tys[|bits|], forward);
        assert tys[..|bits| + 1] == tys[..|bits|] + [tys[|bits|]];
        bits := bits + [x];
      }
      assert tys[..|tys|] == tys;
      r := ReadyValidRef(role, Channel(valid, ready, bits), payload);
    }

    /** `rv_sink`: the module takes items in. */
    method RvSink(payload: Payload) returns (r: ReadyValidRef)
      modifies this`signals
      ensures r.role.Sink? && r.payload == payload
      ensures Built() == old(Built()).(signals := old(signals) + ChannelInfos(payload, Sink))
      ensures r.channel == ChannelAt(id, |old(signals)|, |PayloadTypes(payload)|)
    {
      r := AddChannel(payload, Sink);
    }

    /** `rv_source`: the module gives items out. */
    method RvSource(payload: Payload) returns (r: ReadyValidRef)
      modifies this`signals
      ensures r.role.Source? && r.payload == payload
      ensures Built() == old(Built()).(signals := old(signals) + ChannelInfos(payload, Source))
      ensures r.channel == ChannelAt(id, |old(signals)|, |PayloadTypes(payload)|)
    {
      r := AddChannel(payload, Source);
    }

    // ------------------------------------------------------- register FIFO

    /** `emit_rv_fifo_common` */
    method EmitFifoCommon(input: Channel, output: Channel, clock: Signal, reset: Signal, depth: nat)
      returns (c: Control)
      requires depth >= 2
      modifies this
      ensures diagnostics == old(diagnostics)
      ensures c == Control(input, output, clock, reset, depth, Signal(id, |old(signals)|),
                           Signal(id, |old(signals)| + 1), Signal(id, |old(signals)| + 2))
      ensures Built() == WithControl(old(Built()), c)
    {
      var countWidth, ptrWidth := CeilLog2(depth + 1), CeilLog2(depth);
      var count := PlainReg(UInt(countWidth), clock, reset);
      var wptr := PlainReg(UInt(ptrWidth), clock, reset);
      var rptr := PlainReg(UInt(ptrWidth), clock, reset);
      c := Control(input, output, clock, reset, depth, count, wptr, rptr);
      Assign(input.ready, c.NotFull());
      Assign(output.valid, c.NonEmpty());
      Next(count, c.CountNext());
      Next(wptr, c.PtrNext(c.WriteFire(), wptr));
      Next(rptr, c.PtrNext(c.ReadFire(), rptr));
    }

    /** The data registers of one payload field. */
    method EmitEntries(c: Control, bits: Signal, ty: BitType) returns (entries: seq<Signal>)
      requires c.depth >= 2
      modifies this
      ensures diagnostics == old(diagnostics) && |entries| == c.depth
      ensures Emitted(old(Built()), Built(), []) && EntriesEmitted(Built(), c, bits, ty, entries)
    {
      entries := [];
      while |entries| < c.depth
        invariant |entries| <= c.depth && diagnostics == old(diagnostics)
        invariant Emitted(old(Built()), Built(), []) && EntriesEmitted(Built(), c, bits, ty, entries)
      {
        ghost var now := Built();
        EntryAdded(now, c, bits, ty, entries);
        var x := EmitReg(ty, c.clock, c.reset, LoadNext(c, bits, Signal(id, |signals|), |entries|));
        EmittedTrans(old(Built()), now, Built(), [], []);
        entries := entries + [x];
      }
    }

    /** The data registers and the output mux of payload field j. */
    method EmitField(c: Control, w: Match, j: nat) returns (entries: seq<Signal>)
      requires c.depth >= 2 && j < |w.fields|
      modifies this
      ensures diagnostics == old(diagnostics) && |entries| == c.depth
      ensures Emitted(old(Built()), Built(), [EntryAssign(c, BitAt(w.output, j), entries)])
      ensures FieldEmitted(Built(), c, w, j, entries)
    {
      entries := EmitEntries(c, BitAt(w.input, j), w.fields[j]);
      ghost var now := Built();
      EntriesToField(now, c, w, j, entries);
      var e := EntryAssign(c, BitAt(w.output, j), entries);
      Assign(e.dst, e.expr);
      EmittedTrans(old(Built()), now, Built(), [], [e]);
    }

    method EmitFields(c: Control, w: Match) returns (data: seq<seq<Signal>>)
      requires c.depth >= 2
      modifies this
      ensures diagnostics == old(diagnostics) && |data| == |w.fields| && Square(c, data)
      ensures Emitted(old(Built()), Built(), FieldAssigns(c, w, data))
      ensures FieldsEmitted(Built(), c, w, data)
    {
      data := [];
      while |data| < |w.fields|
        invariant |data| <= |w.fields| && Square(c, data) && diagnostics == old(diagnostics)
        invariant Emitted(old(Built()), Built(), FieldAssigns(c, w, data))
        invariant FieldsEmitted(Built(), c, w, data)
      {
        ghost var now := Built();
        var entries := EmitField(c, w, |data|);
        FieldAdded(now, Built(), c, w, data, entries);
        EmittedTrans(old(Built()), now, Built(), FieldAssigns(c, w, data),
                     [EntryAssign(c, BitAt(w.output, |data|), entries)]);
        data := data + [entries];
      }
    }

    /** The accepted part of `rv_fifo`. */
    method EmitFifo(w: Match, clock: Signal, reset: Signal, depth: nat) returns (c: Control, data: seq<seq<Signal>>)
      requires depth >= 2
      modifies this
      ensures diagnostics == old(diagnostics) && |data| == |w.fields|
      ensures c.input == w.input && c.output == w.output && c.clock == clock && c.reset == reset
              && c.depth == depth && Square(c, data)
      ensures Emitted(old(Built()), Built(), FifoAssigns(c, w, data))
      ensures ControlEmitted(Built(), c) && FieldsEmitted(Built(), c, w, data)
    {
      c := EmitFifoCommon(w.input, w.output, clock, reset, depth);
      ghost var now := Built();
      ControlAdded(old(Built()), c);
      data := EmitFields(c, w);
      KeepsControl(now, Built(), FieldAssigns(c, w, data), c);
      EmittedTrans(old(Built()), now, Built(), ControlAssigns(c), FieldAssigns(c, w, data));
    }

    /** `rv_fifo` */
    method RvFifo(input: ReadyValidRef, output: ReadyValidRef, clock: Signal, reset: Signal, depth: nat)
      returns (net: Option<FifoNet>)
      modifies this
      ensures net.Some? <==> FifoAccepted(input, output, depth)
      ensures net.Some? <==> Joinable(input, output) && 2 <= depth && depth + 1 < Pow2(64)
      ensures net.Some? ==> FieldsPaired(input, output, net.value.c.input, net.value.c.output)
      ensures net.None? ==> Built() == old(Built()) && |diagnostics| > |old(diagnostics)|
      ensures net.Some? ==>
                && diagnostics == old(diagnostics)
                && FifoOn(net.value.c, input, output, clock, reset, depth)
                && net.value.fields == MatchPayloads(input, output).m.fields
                && |net.value.data| == |net.value.fields| && Square(net.value.c, net.value.data)
                && Emitted(old(Built()), Built(),
                           FifoAssigns(net.value.c, MatchPayloads(input, output).m, net.value.data))
                && (EndsOk(old(Built()), input, output, reset) ==> HasFifo(Built(), net.value))
    {
      AcceptedExactly(input, output);
      if !FifoAccepted(input, output, depth) {
        diagnostics := diagnostics + FifoErrors(input, output, depth);
        return None;
      }
      MatchedPairs(input, output);
      var w := MatchPayloads(input, output).m;
      var c, data := EmitFifo(w, clock, reset, depth);
      net := Some(FifoNet(c, w.fields, data));
      if EndsOk(old(Built()), input, output, reset) {
        KeepsEnds(old(Built()), Built(), FifoAssigns(c, w, data), input, output, reset);
        FieldsMakeFifo(Built(), c, w, data);
      }
    }

    // --------------------------------------------------------- memory FIFO

    /** The storage, its only writer and its read wire. */
    method EmitStorage(c: Control, w: Match) returns (f: MemFifoNet)
      requires c.depth >= 2 && (w.packed || w.fields != [])
      modifies this
      ensures diagnostics == old(diagnostics)
      ensures f == MemFifoNet(c, w.fields, w.packed, Signal(id, |old(signals)|), Signal(id, |old(signals)| + 1))
      ensures Built() == WithStorage(old(Built()), w, f)
    {
      var mem := AddSignal(StoredType(w), Mem(c.PtrWidth(), c.depth));
      var readData := AddSignal(StoredType(w), Wire);
      MemWrite(mem, c.clock, c.WriteFire(), Ref(c.wptr), StoredData(w));
      Assign(readData, MemRead(mem, Ref(c.rptr)));
      f := MemFifoNet(c, w.fields, w.packed, mem, readData);
    }

    /** The output fields, unpacked from the read wire. */
    method EmitReads(w: Match, f: MemFifoNet)
      modifies this`assignments
      ensures Emitted(old(Built()), Built(), FieldReads(w, f, |f.fields|))
    {
      var k := 0;
      assert FieldReads(w, f, 0) == [];
      while k < |f.fields|
        invariant k <= |f.fields| && Emitted(old(Built()), Built(), FieldReads(w, f, k))
      {
        ghost var now := Built();
        ReadAdded(now, w, f, k);
        Assign(BitAt(w.output, k), f.ReadField(k));
        EmittedTrans(old(Built()), now, Built(), FieldReads(w, f, k), [FieldRead(w, f, k)]);
        k := k + 1;
      }
    }

    /** The accepted part of `rv_mem_fifo`. */
    method EmitMemFifo(w: Match, clock: Signal, reset: Signal, depth: nat) returns (f: MemFifoNet)
      requires depth >= 2 && (w.packed || w.fields != [])
      modifies this
      ensures diagnostics == old(diagnostics)
      ensures f.c.input == w.input && f.c.output == w.output && f.fields == w.fields && f.packed == w.packed
      ensures f.c.clock == clock && f.c.reset == reset && f.c.depth == depth
      ensures f.mem.owner == id && |old(signals)| <= f.mem.id && ReadWireAt(f, |old(signals)|, Built())
      ensures Emitted(old(Built()), Built(), MemFifoAssigns(w, f))
      ensures ControlEmitted(Built(), f.c) && StorageEmitted(Built(), w, f, old(memoryWrites))
      ensures forall k | 0 <= k < |f.fields| :: FieldRead(w, f, k) in assignments
    {
      var c := EmitFifoCommon(w.input, w.output, clock, reset, depth);
      ghost var controlled := Built();
      ControlAdded(old(Built()), c);
      f := EmitStorage(c, w);
      ghost var stored := Built();
      StorageAdded(controlled, w, f);
      EmitReads(w, f);
      StoredThrough(old(Built()), controlled, stored, Built(), w, f);
    }

    /** `rv_mem_fifo` */
    method RvMemFifo(input: ReadyValidRef, output: ReadyValidRef, clock: Signal, reset: Signal, depth: nat)
      returns (net: Option<MemFifoNet>)
      modifies this
      ensures net.Some? <==> FifoAccepted(input, output, depth)
      ensures net.Some? <==> Joinable(input, output) && 2 <= depth && depth + 1 < Pow2(64)
      ensures net.Some? ==> FieldsPaired(input, output, net.value.c.input, net.value.c.output)
      ensures net.None? ==> Built() == old(Built()) && |diagnostics| > |old(diagnostics)|
      ensures net.Some? ==>
                && diagnostics == old(diagnostics)
                && FifoOn(net.value.c, input, output, clock, reset, depth)
                && net.value.fields == MatchPayloads(input, output).m.fields
                && net.value.packed == MatchPayloads(input, output).m.packed
                && ReadWireAt(net.value, |old(signals)|, Built())
                && Emitted(old(Built()), Built(), MemFifoAssigns(MatchPayloads(input, output).m, net.value))
                && (EndsOk(old(Built()), input, output, reset) && WritesKnown(old(Built()))
                    && Storable(MatchPayloads(input, output).m)
                    ==> HasMemFifo(Built(), net.value) && WritesKnown(Built()))
    {
      AcceptedExactly(input, output);
      if !FifoAccepted(input, output, depth) {
        diagnostics := diagnostics + FifoErrors(input, output, depth);
        return None;
      }
      MatchedPairs(input, output);
      var w := MatchPayloads(input, output).m;
      MatchShape(input, output);
      var f := EmitMemFifo(w, clock, reset, depth);
      net := Some(f);
      if EndsOk(old(Built()), input, output, reset) && WritesKnown(old(Built())) && Storable(w) {
        KeepsEnds(old(Built()), Built(), MemFifoAssigns(w, f), input, output, reset);
        StorageMakesFifo(old(Built()), Built(), w, f, MemFifoAssigns(w, f));
      }
    }

    // --------------------------------------------------------- skid buffer

    /** `emit_rv_skid_buffer_common` */
    method EmitSkidCommon(input: Channel, output: Channel, clock: Signal, reset: Signal,
                          fields: seq<BitType>) returns (f: SkidNet)
      modifies this
      ensures diagnostics == old(diagnostics)
      ensures f == SkidNet(input, output, clock, reset, fields, Signal(id, |old(signals)|), [])
      ensures Built() == WithSkid(old(Built()), f)
    {
      var full := PlainReg(UInt(1), clock, reset);
      f := SkidNet(input, output, clock, reset, fields, full, []);
      Next(full, f.FullNext());
      Assign(input.ready, Or(Not(Ref(full)), Ref(output.ready)));
      Assign(output.valid, Or(Ref(full), Ref(input.valid)));
    }

    /** The holding register and the bypass of field j. */
    method EmitHeld(f: SkidNet, w: Match, j: nat) returns (x: Signal)
      requires j < |w.fields|
      modifies this
      ensures diagnostics == old(diagnostics) && x == Signal(id, |old(signals)|)
      ensures Built() == WithHeld(old(Built()), f, w, j)
    {
      var bits := BitAt(w.input, j);
      x := EmitReg(w.fields[j], f.clock, f.reset, Mux(f.Load(), Ref(bits), Ref(Signal(id, |signals|))));
      Assign(BitAt(w.output, j), Mux(Ref(f.full), Ref(x), Ref(bits)));
    }

    method EmitAllHeld(f: SkidNet, w: Match) returns (held: seq<Signal>)
      modifies this
      ensures diagnostics == old(diagnostics) && |held| == |w.fields|
      ensures Emitted(old(Built()), Built(), HeldAssigns(f, w, held)) && AllHeld(Built(), f, w, held)
    {
      held := [];
      while |held| < |w.fields|
        invariant |held| <= |w.fields| && diagnostics == old(diagnostics)
        invariant Emitted(old(Built()), Built(), HeldAssigns(f, w, held)) && AllHeld(Built(), f, w, held)
      {
        ghost var now := Built();
        HeldAdded(now, f, w, held);
        var x := EmitHeld(f, w, |held|);
        EmittedTrans(old(Built()), now, Built(), HeldAssigns(f, w, held),
                     [HeldAssign(f, x, BitAt(w.input, |held|), BitAt(w.output, |held|))]);
        held := held + [x];
      }
    }

    /** The accepted part of `rv_skid_buffer`. */
    method EmitSkid(w: Match, clock: Signal, reset: Signal) returns (f: SkidNet, held: seq<Signal>)
      modifies this
      ensures diagnostics == old(diagnostics) && |held| == |w.fields|
      ensures f.input == w.input && f.output == w.output && f.fields == w.fields
      ensures f.clock == clock && f.reset == reset && f.held == []
      ensures Emitted(old(Built()), Built(), SkidAssigns(f, w, held))
      ensures SkidEmitted(Built(), f) && AllHeld(Built(), f, w, held)
    {
      f := EmitSkidCommon(w.input, w.output, clock, reset, w.fields);
      ghost var now := Built();
      SkidAdded(old(Built()), f);
      held := EmitAllHeld(f, w);
      KeepsSkid(now, Built(), HeldAssigns(f, w, held), f);
      EmittedTrans(old(Built()), now, Built(), SkidHandshake(f), HeldAssigns(f, w, held));
    }

    /** `rv_skid_buffer` */
    method RvSkidBuffer(input: ReadyValidRef, output: ReadyValidRef, clock: Signal, reset: Signal)
      returns (net: Option<SkidNet>)
      modifies this
      ensures net.Some? <==> EndsAccepted(input, output)
      ensures net.Some? <==> Joinable(input, output)
      ensures net.Some? ==> FieldsPaired(input, output, net.value.input, net.value.output)
      ensures net.None? ==> Built() == old(Built()) && |diagnostics| > |old(diagnostics)|
      ensures net.Some? ==>
                && diagnostics == old(diagnostics)
                && SkidOn(net.value, input, output, clock, reset)
                && Emitted(old(Built()), Built(),
                           SkidAssigns(net.value, MatchPayloads(input, output).m, net.value.held))
                && (EndsOk(old(Built()), input, output, reset) ==> HasSkid(Built(), net.value))
    {
      AcceptedExactly(input, output);
      if !EndsAccepted(input, output) {
        diagnostics := diagnostics + EndsErrors(input, output);
        return None;
      }
      MatchedPairs(input, output);
      var w := MatchPayloads(input, output).m;
      var f, held := EmitSkid(w, clock, reset);
      net := Some(f.(held := held));
      SkidAssignsHeld(f, w, held);
      if EndsOk(old(Built()), input, output, reset) {
        KeepsEnds(old(Built()), Built(), SkidAssigns(f, w, held), input, output, reset);
        FieldsMakeSkid(Built(), f, w, held);
      }
    }

    // ----------------------------------------------------------- rv_connect

    method EmitConnect(w: Match)
      modifies this`assignments
      ensures Emitted(old(Built()), Built(), ConnectAssigns(w))
    {
      Assign(w.output.valid, Ref(w.input.valid));
      Assign(w.input.ready, Ref(w.output.ready));
      var k := 0;
      while k < |w.fields|
        invariant k <= |w.fields|
        invariant assignments == old(assignments) + ConnectHandshake(w) + BitAssigns(w, k)
      {
        Assign(BitAt(w.output, k), Ref(BitAt(w.input, k)));
        k := k + 1;
      }
    }

    /** `rv_connect` */
    method RvConnect(input: ReadyValidRef, output: ReadyValidRef) returns (net: Option<WiresNet>)
      modifies this
      ensures signals == old(signals) && memoryWrites == old(memoryWrites)
      ensures net.Some? <==> EndsAccepted(input, output)
      ensures net.Some? <==> Joinable(input, output)
      ensures net.Some? ==> FieldsPaired(input, output, net.value.input, net.value.output)
      ensures net.None? ==> Built() == old(Built()) && |diagnostics| > |old(diagnostics)|
      ensures net.Some? ==>
                && diagnostics == old(diagnostics)
                && net.value.input == MatchPayloads(input, output).m.input
                && net.value.output == output.channel
                && Emitted(old(Built()), Built(), ConnectAssigns(MatchPayloads(input, output).m))
                && (RefOk(old(Built()), input) && RefOk(old(Built()), output)
                    ==> HasWires(Built(), net.value))
    {
      AcceptedExactly(input, output);
      if !EndsAccepted(input, output) {
        diagnostics := diagnostics + EndsErrors(input, output);
        return None;
      }
      MatchedPairs(input, output);
      var w := MatchPayloads(input, output).m;
      net := Some(WiresNet(w.input, w.output, w.fields));
      EmitConnect(w);
      ConnectsKnown(old(Built()), Built(), input, output);
    }
  }
}
