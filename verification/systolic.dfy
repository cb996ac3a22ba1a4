/** The systolic multiply-accumulate array: how it is built, what every register
    holds after any number of cycles, and when the accumulators hold a matrix
    product. */
module Systolic {
  import opened Words
  import opened Semantics

  // ------------------------------------------------------------ the netlist

  datatype Reg =
    | ActReg(row: nat, col: nat)
    | WeightReg(row: nat, col: nat)
    | PsumReg(row: nat, col: nat)

  /** The wires the builder makes. */
  datatype Wire =
    | Act(index: nat)
    | Weight(index: nat)
    | Read(reg: Reg)
    | SignedMult(lhs: Wire, rhs: Wire)
    | SignExtended(inner: Wire, width: nat)
    | Truncated(inner: Wire, width: nat)
    | Sum(lhs: Wire, rhs: Wire)

  datatype Block = Block(
    dataWidth: nat, widths: map<Reg, nat>, nexts: map<Reg, Wire>, outputs: map<(nat, nat), Reg>)
  {
    function RegWidth(r: Reg): nat {
      if r in widths then widths[r] else 0
    }

    function WidthOf(e: Wire): nat {
      match e
      case Act(_) => dataWidth
      case Weight(_) => dataWidth
      case Read(r) => RegWidth(r)
      case SignedMult(l, r) => WidthOf(l) + WidthOf(r)
      case SignExtended(_, width) => width
      case Truncated(_, width) => width
      case Sum(l, r) => (if WidthOf(l) > WidthOf(r) then WidthOf(l) else WidthOf(r)) + 1
    }
  }

  /** The bit patterns on the input ports, by index and cycle. */
  datatype Stimulus = Stimulus(act: (nat, nat) -> nat, weight: (nat, nat) -> nat)

  type Registers = map<Reg, nat>

  function Stored(regs: Registers, r: Reg): nat {
    if r in regs then regs[r] else 0
  }

  function Value(b: Block, regs: Registers, stim: Stimulus, t: nat, e: Wire): nat {
    match e
    case Act(row) => Low(stim.act(row, t), b.dataWidth)
    case Weight(col) => Low(stim.weight(col, t), b.dataWidth)
    case Read(r) => Stored(regs, r)
    case SignedMult(l, r) =>
      Low(AsSigned(Value(b, regs, stim, t, l), b.WidthOf(l))
          * AsSigned(Value(b, regs, stim, t, r), b.WidthOf(r)), b.WidthOf(e))
    case SignExtended(inner, width) =>
      Low(AsSigned(Value(b, regs, stim, t, inner), b.WidthOf(inner)), width)
    case Truncated(inner, width) => Low(Value(b, regs, stim, t, inner), width)
    case Sum(l, r) =>
      Low(Value(b, regs, stim, t, l) + Value(b, regs, stim, t, r), b.WidthOf(e))
  }

  /** One clock cycle: every register takes its next value. */
  function Step(b: Block, regs: Registers, stim: Stimulus, t: nat): Registers {
    map r | r in b.nexts :: Low(Value(b, regs, stim, t, b.nexts[r]), b.RegWidth(r))
  }

  function PowerUp(b: Block): Registers {
    map r | r in b.nexts :: 0
  }

  predicate StepOk(b: Block, stim: Stimulus, states: seq<Registers>, t: nat)
    requires t + 1 < |states|
  {
    states[t + 1] == Step(b, states[t], stim, t)
  }

  /** The register states of a run: power-up, then one step a cycle. */
  predicate IsRun(b: Block, stim: Stimulus, states: seq<Registers>) {
    && states != [] && states[0] == PowerUp(b)
    && forall t | 0 <= t < |states| - 1 :: StepOk(b, stim, states, t)
  }

  /** Clock the block: all registers change together. */
  method Simulate(b: Block, stim: Stimulus, cycles: nat) returns (states: seq<Registers>)
    ensures IsRun(b, stim, states) && |states| == cycles + 1
  {
    var regs := PowerUp(b);
    states := [regs];
    var t := 0;
    while t < cycles
      invariant t <= cycles && |states| == t + 1 && states[t] == regs
      invariant IsRun(b, stim, states)
    {
      regs := Step(b, regs, stim, t);
      ghost var before := states;
      states := states + [regs];
      forall i | 0 <= i < |states| - 1
        ensures StepOk(b, stim, states, i)
      {
        assert i < t ==> StepOk(b, stim, before, i);
      }
      t := t + 1;
    }
  }

  // ------------------------------------------------------------ the builder

  /** `_fit_signed` */
  function FitSigned(b: Block, e: Wire, width: nat): Wire {
    if b.WidthOf(e) < width then SignExtended(e, width)
    else if b.WidthOf(e) > width then Truncated(e, width)
    else e
  }

  function ActSource(row: nat, col: nat): Wire {
    if col == 0 then Act(row) else Read(ActReg(row, col - 1))
  }

  function WeightSource(row: nat, col: nat): Wire {
    if row == 0 then Weight(col) else Read(WeightReg(row - 1, col))
  }

  function PsumNext(b: Block, row: nat, col: nat, accWidth: nat): Wire {
    var product := SignedMult(Read(ActReg(row, col)), Read(WeightReg(row, col)));
    Truncated(Sum(Read(PsumReg(row, col)), FitSigned(b, product, accWidth)), accWidth)
  }

  /** The array of the given shape. */
  predicate IsSystolic(b: Block, rows: nat, cols: nat, dataWidth: nat, accWidth: nat) {
    && b.dataWidth == dataWidth
    && (forall r | r in b.nexts :: r.row < rows && r.col < cols)
    && (forall row, col | 0 <= row < rows && 0 <= col < cols :: CellBuilt(b, row, col, accWidth))
  }

  predicate CellBuilt(b: Block, row: nat, col: nat, accWidth: nat) {
    && WidthsOk(b, row, col, accWidth)
    && ActReg(row, col) in b.nexts && b.nexts[ActReg(row, col)] == ActSource(row, col)
    && WeightReg(row, col) in b.nexts && b.nexts[WeightReg(row, col)] == WeightSource(row, col)
    && PsumReg(row, col) in b.nexts && b.nexts[PsumReg(row, col)] == PsumNext(b, row, col, accWidth)
    && (row, col) in b.outputs && b.outputs[(row, col)] == PsumReg(row, col)
  }

  predicate WidthsOk(b: Block, row: nat, col: nat, accWidth: nat) {
    && b.RegWidth(ActReg(row, col)) == b.dataWidth
    && b.RegWidth(WeightReg(row, col)) == b.dataWidth
    && b.RegWidth(PsumReg(row, col)) == accWidth
  }

  datatype BuildResult = Built(block: Block) | ValueError

  /** Row by row, column by column before (row, col). */
  predicate Before(r: nat, c: nat, row: nat, col: nat, cols: nat) {
    c < cols && (r < row || (r == row && c < col))
  }

  ghost predicate BuiltUpto(b: Block, row: nat, col: nat, cols: nat, accWidth: nat) {
    && (forall r | r in b.nexts :: Before(r.row, r.col, row, col, cols))
    && forall r: nat, c: nat | Before(r, c, row, col, cols) :: CellBuilt(b, r, c, accWidth)
  }

  /** `build_systolic_mac` */
  method BuildSystolicMac(rows: int, cols: int, dataWidth: int, accWidth: int) returns (r: BuildResult)
    ensures r.ValueError? <==>
              rows <= 0 || cols <= 0 || dataWidth <= 0 || accWidth < dataWidth * 2
    ensures r.Built? ==> IsSystolic(r.block, rows, cols, dataWidth, accWidth)
  {
    if rows <= 0 || cols <= 0 || dataWidth <= 0 || accWidth <= 0 {
      return ValueError;
    }
    if accWidth < dataWidth * 2 {
      return ValueError;
    }
    var b := Block(dataWidth, RegWidths(rows, cols, dataWidth, accWidth), map[], map[]);
    var row: nat := 0;
    while row < rows
      invariant row <= rows && b.dataWidth == dataWidth
      invariant b.widths == RegWidths(rows, cols, dataWidth, accWidth)
      invariant BuiltUpto(b, row, 0, cols, accWidth)
    {
      b := BuildRow(b, rows, cols, accWidth, row);
      NextRow(b, row, cols, accWidth);
      row := row + 1;
    }
    AllBuilt(b, rows, cols, accWidth);
    r := Built(b);
  }

  /** The inner loop over one row. */
  method BuildRow(before: Block, rows: nat, cols: nat, accWidth: nat, row: nat) returns (b: Block)
    requires row < rows && BuiltUpto(before, row, 0, cols, accWidth)
    requires before.widths == RegWidths(rows, cols, before.dataWidth, accWidth)
    ensures b.dataWidth == before.dataWidth && b.widths == before.widths
    ensures BuiltUpto(b, row, cols, cols, accWidth)
  {
    b := before;
    var col: nat := 0;
    while col < cols
      invariant col <= cols && b.dataWidth == before.dataWidth && b.widths == before.widths
      invariant BuiltUpto(b, row, col, cols, accWidth)
    {
      var more := BuildCell(b, row, col, accWidth);
      CellWidths(more, rows, cols, accWidth, row, col);
      CellAdded(b, more, row, col, cols, accWidth);
      b := more;
      col := col + 1;
    }
  }

  /** The body of the loops: the next states and the output of one cell. */
  method BuildCell(before: Block, row: nat, col: nat, accWidth: nat) returns (b: Block)
    ensures Extends(before, b, row, col, accWidth)
  {
    b := before.(nexts := before.nexts[ActReg(row, col) := ActSource(row, col)]
                                      [WeightReg(row, col) := WeightSource(row, col)]
                                      [PsumReg(row, col) := PsumNext(before, row, col, accWidth)],
                 outputs := before.outputs[(row, col) := PsumReg(row, col)]);
  }

  lemma CellWidths(b: Block, rows: nat, cols: nat, accWidth: nat, row: nat, col: nat)
    requires b.widths == RegWidths(rows, cols, b.dataWidth, accWidth) && row < rows && col < cols
    ensures WidthsOk(b, row, col, accWidth)
  {
  }

  lemma AllBuilt(b: Block, rows: nat, cols: nat, accWidth: nat)
    requires BuiltUpto(b, rows, 0, cols, accWidth)
    ensures IsSystolic(b, rows, cols, b.dataWidth, accWidth)
  {
    forall row, col | 0 <= row < rows && 0 <= col < cols
      ensures CellBuilt(b, row, col, accWidth)
    {
      assert Before(row, col, rows, 0, cols);
    }
  }

  /** The register lists: widths of every register of the array. */
  function RegWidths(rows: nat, cols: nat, dataWidth: nat, accWidth: nat): map<Reg, nat> {
    (map row, col | 0 <= row < rows && 0 <= col < cols :: ActReg(row, col) := dataWidth)
    + (map row, col | 0 <= row < rows && 0 <= col < cols :: WeightReg(row, col) := dataWidth)
    + (map row, col | 0 <= row < rows && 0 <= col < cols :: PsumReg(row, col) := accWidth)
  }

  lemma PsumNextWidths(a: Block, b: Block, row: nat, col: nat, accWidth: nat)
    requires a.widths == b.widths && a.dataWidth == b.dataWidth
    ensures PsumNext(a, row, col, accWidth) == PsumNext(b, row, col, accWidth)
  {
    var product := SignedMult(Read(ActReg(row, col)), Read(WeightReg(row, col)));
    assert a.WidthOf(product) == b.WidthOf(product);
  }

  lemma NextRow(b: Block, row: nat, cols: nat, accWidth: nat)
    requires BuiltUpto(b, row, cols, cols, accWidth)
    ensures BuiltUpto(b, row + 1, 0, cols, accWidth)
  {
    assert forall r: nat, c: nat :: Before(r, c, row + 1, 0, cols) <==> Before(r, c, row, cols, cols);
  }

  /** The registers and the output of one more cell. */
  predicate Extends(a: Block, b: Block, row: nat, col: nat, accWidth: nat) {
    && a.widths == b.widths && a.dataWidth == b.dataWidth
    && b.nexts == a.nexts[ActReg(row, col) := ActSource(row, col)]
                         [WeightReg(row, col) := WeightSource(row, col)]
                         [PsumReg(row, col) := PsumNext(a, row, col, accWidth)]
    && b.outputs == a.outputs[(row, col) := PsumReg(row, col)]
  }

  lemma KeepsCell(a: Block, b: Block, row: nat, col: nat, accWidth: nat, r: nat, c: nat)
    requires Extends(a, b, row, col, accWidth)
    requires CellBuilt(a, r, c, accWidth) && (r != row || c != col)
    ensures CellBuilt(b, r, c, accWidth)
  {
    PsumNextWidths(a, b, r, c, accWidth);
  }

  lemma NewCell(a: Block, b: Block, row: nat, col: nat, accWidth: nat)
    requires Extends(a, b, row, col, accWidth) && WidthsOk(b, row, col, accWidth)
    ensures CellBuilt(b, row, col, accWidth)
  {
    PsumNextWidths(a, b, row, col, accWidth);
  }

  lemma CellAdded(a: Block, b: Block, row: nat, col: nat, cols: nat, accWidth: nat)
    requires BuiltUpto(a, row, col, cols, accWidth) && col < cols
    requires Extends(a, b, row, col, accWidth) && WidthsOk(b, row, col, accWidth)
    ensures BuiltUpto(b, row, col + 1, cols, accWidth)
  {
    forall r: nat, c: nat | Before(r, c, row, col + 1, cols)
      ensures CellBuilt(b, r, c, accWidth)
    {
      if r != row || c != col {
        assert Before(r, c, row, col, cols);
        KeepsCell(a, b, row, col, accWidth, r, c);
      } else {
        NewCell(a, b, row, col, accWidth);
      }
    }
    forall r | r in b.nexts
      ensures Before(r.row, r.col, row, col + 1, cols)
    {
      assert r in a.nexts || (r.row == row && r.col == col);
    }
  }

  // ------------------------------------------------------------ closed form

  /** A run of an array of the given shape. */
  datatype Run = Run(
    block: Block, rows: nat, cols: nat, accWidth: nat, stim: Stimulus, states: seq<Registers>)
  {
    predicate Valid() {
      && IsSystolic(block, rows, cols, block.dataWidth, accWidth)
      && 0 < block.dataWidth && block.dataWidth * 2 <= accWidth
      && IsRun(block, stim, states)
    }

    predicate Cell(row: nat, col: nat) {
      row < rows && col < cols
    }

    /** What a register holds after t cycles. */
    function Holds(r: Reg, t: nat): nat
      requires t < |states|
    {
      Stored(states[t], r)
    }

    /** What activation input `row` carried in cycle t. */
    function ActIn(row: nat, t: nat): nat {
      Low(stim.act(row, t), block.dataWidth)
    }

    function WeightIn(col: nat, t: nat): nat {
      Low(stim.weight(col, t), block.dataWidth)
    }

    /** The activation input of the row, delayed by col + 1 cycles. */
    function ActAt(row: nat, col: nat, t: nat): nat {
      if t > col then ActIn(row, t - 1 - col) else 0
    }

    /** The weight input of the column, delayed by row + 1 cycles. */
    function WeightAt(row: nat, col: nat, t: nat): nat {
      if t > row then WeightIn(col, t - 1 - row) else 0
    }

    /** The signed product a cell forms in cycle t. */
    function ProductAt(row: nat, col: nat, t: nat): int {
      AsSigned(ActAt(row, col, t), block.dataWidth) * AsSigned(WeightAt(row, col, t), block.dataWidth)
    }

    /** The signed products seen by a cell in the first t cycles. */
    function Products(row: nat, col: nat, t: nat): int {
      if t == 0 then 0 else Products(row, col, t - 1) + ProductAt(row, col, t - 1)
    }
  }

  lemma RegStep(run: Run, r: Reg, t: nat)
    requires run.Valid() && r in run.block.nexts && t + 1 < |run.states|
    ensures run.Holds(r, t + 1)
         == Low(Value(run.block, run.states[t], run.stim, t, run.block.nexts[r]), run.block.RegWidth(r))
  {
    assert StepOk(run.block, run.stim, run.states, t);
  }

  lemma CellOf(run: Run, row: nat, col: nat)
    requires run.Valid() && run.Cell(row, col)
    ensures CellBuilt(run.block, row, col, run.accWidth)
    ensures forall r | r in {ActReg(row, col), WeightReg(row, col), PsumReg(row, col)} ::
              r in run.block.nexts && run.Holds(r, 0) == 0
  {
  }

  lemma ActStep(run: Run, row: nat, col: nat, t: nat)
    requires run.Valid() && run.Cell(row, col) && t + 1 < |run.states|
    ensures run.Holds(ActReg(row, col), t + 1)
         == Low(if col == 0 then run.ActIn(row, t) else run.Holds(ActReg(row, col - 1), t),
                run.block.dataWidth)
  {
    CellOf(run, row, col);
    RegStep(run, ActReg(row, col), t);
  }

  lemma WeightStep(run: Run, row: nat, col: nat, t: nat)
    requires run.Valid() && run.Cell(row, col) && t + 1 < |run.states|
    ensures run.Holds(WeightReg(row, col), t + 1)
         == Low(if row == 0 then run.WeightIn(col, t) else run.Holds(WeightReg(row - 1, col), t),
                run.block.dataWidth)
  {
    CellOf(run, row, col);
    RegStep(run, WeightReg(row, col), t);
  }

  lemma Delayed(run: Run, row: nat, col: nat, t: nat)
    ensures Low(run.ActAt(row, col, t), run.block.dataWidth) == run.ActAt(row, col, t)
    ensures Low(run.WeightAt(row, col, t), run.block.dataWidth) == run.WeightAt(row, col, t)
    ensures run.ActAt(row, col, t) < Pow2(run.block.dataWidth)
    ensures run.WeightAt(row, col, t) < Pow2(run.block.dataWidth)
  {
    var w := run.block.dataWidth;
    LowSmall(0, w);
    if t > col {
      LowLow(run.stim.act(row, t - 1 - col), w, w);
    }
    if t > row {
      LowLow(run.stim.weight(col, t - 1 - row), w, w);
    }
  }

  /** Activations travel along the row, one column a cycle. */
  lemma {:induction false} ActForm(run: Run, row: nat, col: nat, t: nat)
    requires run.Valid() && run.Cell(row, col) && t < |run.states|
    ensures run.Holds(ActReg(row, col), t) == run.ActAt(row, col, t)
    decreases t
  {
    CellOf(run, row, col);
    if t > 0 {
      ActStep(run, row, col, t - 1);
      if col > 0 {
        ActForm(run, row, col - 1, t - 1);
        assert run.ActAt(row, col - 1, t - 1) == run.ActAt(row, col, t);
      }
      Delayed(run, row, col, t);
    }
  }

  /** Weights travel down the column, one row a cycle. */
  lemma {:induction false} WeightForm(run: Run, row: nat, col: nat, t: nat)
    requires run.Valid() && run.Cell(row, col) && t < |run.states|
    ensures run.Holds(WeightReg(row, col), t) == run.WeightAt(row, col, t)
    decreases t
  {
    CellOf(run, row, col);
    if t > 0 {
      WeightStep(run, row, col, t - 1);
      if row > 0 {
        WeightForm(run, row - 1, col, t - 1);
        assert run.WeightAt(row - 1, col, t - 1) == run.WeightAt(row, col, t);
      }
      Delayed(run, row, col, t);
    }
  }

  // --------------------------------------------------- accumulator arithmetic

  lemma AsSignedBack(v: int, w: nat)
    requires w > 0 && FitsSigned(v, w)
    ensures AsSigned(Low(v, w), w) == v
  {
    assert Pow2(w) == 2 * Pow2(w - 1);
    if v >= 0 {
      DivModUnique(v, Pow2(w), 0, v);
    } else {
      DivModUnique(v, Pow2(w), -1, v + Pow2(w));
    }
  }

  lemma AsSignedFits(x: nat, w: nat)
    requires w > 0 && x < Pow2(w)
    ensures FitsSigned(AsSigned(x, w), w)
  {
    assert Pow2(w) == 2 * Pow2(w - 1);
  }

  lemma ProductBound(x: int, y: int, p: int)
    requires p >= 0 && -p <= x <= p && -p <= y <= p
    ensures -(p * p) <= x * y <= p * p
  {
    var ax, ay := if x < 0 then -x else x, if y < 0 then -y else y;
    MulLeq(ax, p, ay);
    MulLeq(ay, p, p);
    assert x * y == ax * ay || x * y == -(ax * ay);
  }

  /** A product of two w-bit numbers fits 2w bits. */
  lemma ProductFits(x: int, y: int, w: nat)
    requires w > 0 && FitsSigned(x, w) && FitsSigned(y, w)
    ensures FitsSigned(x * y, w + w)
    ensures -(Pow2(w + w) as int) < x * y < Pow2(w + w)
  {
    var p := Pow2(w - 1);
    ProductBound(x, y, p);
    Pow2Add(w - 1, w - 1);
    assert p * p == Pow2(w + w - 2);
    assert Pow2(w + w - 1) == 2 * Pow2(w + w - 2);
    assert Pow2(w + w) == 2 * Pow2(w + w - 1);
  }

  /** The fitted product wire carries the signed product modulo 2^accWidth. */
  lemma FittedProduct(b: Block, regs: Registers, stim: Stimulus, t: nat, row: nat, col: nat, accWidth: nat)
    requires WidthsOk(b, row, col, accWidth) && 0 < b.dataWidth && b.dataWidth * 2 <= accWidth
    requires Stored(regs, ActReg(row, col)) < Pow2(b.dataWidth)
    requires Stored(regs, WeightReg(row, col)) < Pow2(b.dataWidth)
    ensures
      var product := SignedMult(Read(ActReg(row, col)), Read(WeightReg(row, col)));
      var fitted := FitSigned(b, product, accWidth);
      && b.WidthOf(fitted) == accWidth
      && Value(b, regs, stim, t, fitted)
         == Low(AsSigned(Stored(regs, ActReg(row, col)), b.dataWidth)
                * AsSigned(Stored(regs, WeightReg(row, col)), b.dataWidth), accWidth)
  {
    var w := b.dataWidth;
    var x := AsSigned(Stored(regs, ActReg(row, col)), w);
    var y := AsSigned(Stored(regs, WeightReg(row, col)), w);
    AsSignedFits(Stored(regs, ActReg(row, col)), w);
    AsSignedFits(Stored(regs, WeightReg(row, col)), w);
    ProductFits(x, y, w);
    AsSignedBack(x * y, w + w);
    var product := SignedMult(Read(ActReg(row, col)), Read(WeightReg(row, col)));
    assert b.WidthOf(product) == w + w;
    assert Value(b, regs, stim, t, product) == Low(x * y, w + w);
  }

  lemma AddLow(sum: int, x: int, w: nat)
    ensures Low(Low(sum, w) + Low(x, w), w) == Low(sum + x, w)
  {
    ModAdd(sum, x, Pow2(w));
  }

  /** Truncating a sum one bit wider loses nothing below the width. */
  lemma TruncatedSum(x: nat, w: nat)
    ensures Low(Low(Low(x, w + 1), w), w) == Low(x, w)
  {
    LowLow(x, w, w + 1);
    LowLow(x, w, w);
  }

  lemma PsumValue(b: Block, regs: Registers, stim: Stimulus, t: nat, row: nat, col: nat, accWidth: nat,
                  fitted: Wire)
    requires WidthsOk(b, row, col, accWidth)
    requires PsumNext(b, row, col, accWidth)
          == Truncated(Sum(Read(PsumReg(row, col)), fitted), accWidth)
    requires b.WidthOf(fitted) == accWidth
    ensures Low(Value(b, regs, stim, t, PsumNext(b, row, col, accWidth)), accWidth)
         == Low(Stored(regs, PsumReg(row, col)) + Value(b, regs, stim, t, fitted), accWidth)
  {
    var sum := Sum(Read(PsumReg(row, col)), fitted);
    var total := Stored(regs, PsumReg(row, col)) + Value(b, regs, stim, t, fitted);
    assert b.WidthOf(sum) == accWidth + 1;
    assert Value(b, regs, stim, t, sum) == Low(total, accWidth + 1);
    TruncatedSum(total, accWidth);
  }

  /** One cycle of one accumulator. */
  lemma PsumStep(run: Run, row: nat, col: nat, t: nat)
    requires run.Valid() && run.Cell(row, col) && t + 1 < |run.states|
    ensures run.Holds(PsumReg(row, col), t + 1)
         == Low(run.Holds(PsumReg(row, col), t) + Low(run.ProductAt(row, col, t), run.accWidth),
                run.accWidth)
  {
    var b, regs := run.block, run.states[t];
    CellOf(run, row, col);
    ActForm(run, row, col, t);
    WeightForm(run, row, col, t);
    Delayed(run, row, col, t);
    RegStep(run, PsumReg(row, col), t);
    FittedProduct(b, regs, run.stim, t, row, col, run.accWidth);
    var product := SignedMult(Read(ActReg(row, col)), Read(WeightReg(row, col)));
    PsumValue(b, regs, run.stim, t, row, col, run.accWidth, FitSigned(b, product, run.accWidth));
  }

  /** The accumulator holds the running signed product sum modulo 2^accWidth. */
  lemma {:induction false} PsumForm(run: Run, row: nat, col: nat, t: nat)
    requires run.Valid() && run.Cell(row, col) && t < |run.states|
    ensures run.Holds(PsumReg(row, col), t) == Low(run.Products(row, col, t), run.accWidth)
    decreases t
  {
    CellOf(run, row, col);
    if t == 0 {
      LowSmall(0, run.accWidth);
    } else {
      PsumForm(run, row, col, t - 1);
      PsumStep(run, row, col, t - 1);
      AddLow(run.Products(row, col, t - 1), run.ProductAt(row, col, t - 1), run.accWidth);
    }
  }

  // ---------------------------------------------------------- matrix product

  type Matrix = seq<seq<int>>

  predicate Shape(a: Matrix, rows: nat, cols: nat, width: nat)
    requires width > 0
  {
    && |a| == rows
    && (forall r | 0 <= r < rows :: |a[r]| == cols)
    && forall r, c | 0 <= r < rows && 0 <= c < cols :: FitsSigned(a[r][c], width)
  }

  function Dot(a: Matrix, w: Matrix, row: nat, col: nat, n: nat): int
    requires row < |a| && n <= |a[row]| && n <= |w|
    requires forall kk | 0 <= kk < n :: col < |w[kk]|
  {
    if n == 0 then 0 else Dot(a, w, row, col, n - 1) + a[row][n - 1] * w[n - 1][col]
  }

  /** `gemm` */
  function Gemm(a: Matrix, w: Matrix, rows: nat, cols: nat, k: nat): (c: Matrix)
    requires |a| >= rows && |w| >= k
    requires forall r | 0 <= r < rows :: |a[r]| >= k
    requires forall r | 0 <= r < k :: |w[r]| >= cols
  {
    seq(rows, row requires 0 <= row < rows =>
      seq(cols, col requires 0 <= col < cols => Dot(a, w, row, col, k)))
  }

  /** `latency_cycles` */
  function LatencyCycles(rows: nat, cols: nat, k: nat): int {
    k + rows + cols - 1
  }

  /** The matrices fit the array. */
  predicate Operands(run: Run, a: Matrix, w: Matrix, k: nat) {
    && 0 < run.block.dataWidth
    && Shape(a, run.rows, k, run.block.dataWidth) && Shape(w, k, run.cols, run.block.dataWidth)
  }

  /** Row r of `a` enters activation input r, one entry a cycle, r cycles late;
      column c of `w` enters weight input c, c cycles late; zeros elsewhere. */
  ghost predicate Skewed(run: Run, a: Matrix, w: Matrix, k: nat)
    requires Operands(run, a, w, k)
  {
    && (forall row: nat, t: nat | row < run.rows ::
          run.stim.act(row, t)
          == if row <= t < row + k then Low(a[row][t - row], run.block.dataWidth) else 0)
    && (forall col: nat, t: nat | col < run.cols ::
          run.stim.weight(col, t)
          == if col <= t < col + k then Low(w[t - col][col], run.block.dataWidth) else 0)
  }

  /** How many products a cell at distance `d` has seen before cycle t. */
  function Seen(t: nat, d: nat, k: nat): (n: nat)
    ensures n <= k
  {
    if t <= d + 1 then 0 else if t - d - 1 > k then k else t - d - 1
  }

  /** The two operands of a cell in cycle t are matching matrix entries, or one of
      them is zero. */
  lemma SkewedProduct(run: Run, a: Matrix, w: Matrix, k: nat, row: nat, col: nat, t: nat)
    requires Operands(run, a, w, k) && Skewed(run, a, w, k) && run.Cell(row, col)
    ensures run.ProductAt(row, col, t)
         == if row + col + 1 <= t < row + col + 1 + k
            then a[row][t - row - col - 1] * w[t - row - col - 1][col] else 0
  {
    var width := run.block.dataWidth;
    LowSmall(0, width);
    var j := t - row - col - 1;
    if t > col {
      var s: nat := t - 1 - col;
      assert run.stim.act(row, s) == if row <= s < row + k then Low(a[row][s - row], width) else 0;
    }
    if t > row {
      var s: nat := t - 1 - row;
      assert run.stim.weight(col, s) == if col <= s < col + k then Low(w[s - col][col], width) else 0;
    }
    if 0 <= j < k {
      LowLow(a[row][j], width, width);
      LowLow(w[j][col], width, width);
      AsSignedBack(a[row][j], width);
      AsSignedBack(w[j][col], width);
    }
  }

  lemma {:induction false} SkewedSum(run: Run, a: Matrix, w: Matrix, k: nat, row: nat, col: nat, t: nat)
    requires Operands(run, a, w, k) && Skewed(run, a, w, k) && run.Cell(row, col)
    ensures run.Products(row, col, t) == Dot(a, w, row, col, Seen(t, row + col, k))
  {
    if t > 0 {
      SkewedSum(run, a, w, k, row, col, t - 1);
      SkewedProduct(run, a, w, k, row, col, t - 1);
    }
  }

  /** The accumulator holds its entry of the product, modulo 2^accWidth. */
  predicate EntryDone(run: Run, a: Matrix, w: Matrix, k: nat, t: nat, row: nat, col: nat)
    requires Operands(run, a, w, k) && run.Cell(row, col) && t < |run.states|
  {
    run.Holds(PsumReg(row, col), t) == Low(Gemm(a, w, run.rows, run.cols, k)[row][col], run.accWidth)
  }

  predicate HoldsProduct(run: Run, a: Matrix, w: Matrix, k: nat, t: nat)
    requires Operands(run, a, w, k) && t < |run.states|
  {
    forall row, col | 0 <= row < run.rows && 0 <= col < run.cols :: EntryDone(run, a, w, k, t, row, col)
  }

  /** After any number of cycles a cell holds the part of the dot product that
      has reached it. */
  lemma PartialProduct(run: Run, a: Matrix, w: Matrix, k: nat, row: nat, col: nat, t: nat)
    requires run.Valid() && Operands(run, a, w, k) && Skewed(run, a, w, k)
    requires run.Cell(row, col) && t < |run.states|
    ensures run.Holds(PsumReg(row, col), t)
         == Low(Dot(a, w, row, col, Seen(t, row + col, k)), run.accWidth)
  {
    PsumForm(run, row, col, t);
    SkewedSum(run, a, w, k, row, col, t);
  }

  /** From `latency_cycles` on the array holds `gemm` modulo 2^accWidth. */
  lemma HoldsGemm(run: Run, a: Matrix, w: Matrix, k: nat, t: nat)
    requires run.Valid() && Operands(run, a, w, k) && Skewed(run, a, w, k)
    requires LatencyCycles(run.rows, run.cols, k) <= t < |run.states|
    ensures HoldsProduct(run, a, w, k, t)
  {
    forall row, col | 0 <= row < run.rows && 0 <= col < run.cols
      ensures EntryDone(run, a, w, k, t, row, col)
    {
      PartialProduct(run, a, w, k, row, col, t);
    }
  }

  /** Read as signed numbers, the accumulators are the product itself whenever it
      fits them. */
  lemma SignedGemm(run: Run, a: Matrix, w: Matrix, k: nat, t: nat, row: nat, col: nat)
    requires run.Valid() && Operands(run, a, w, k) && Skewed(run, a, w, k)
    requires LatencyCycles(run.rows, run.cols, k) <= t < |run.states| && run.Cell(row, col)
    requires FitsSigned(Gemm(a, w, run.rows, run.cols, k)[row][col], run.accWidth)
    ensures AsSigned(run.Holds(PsumReg(row, col), t), run.accWidth)
         == Gemm(a, w, run.rows, run.cols, k)[row][col]
  {
    HoldsGemm(run, a, w, k, t);
    assert EntryDone(run, a, w, k, t, row, col);
    AsSignedBack(Gemm(a, w, run.rows, run.cols, k)[row][col], run.accWidth);
  }

  lemma OffBy(x: int, p: int, w: nat)
    requires -(Pow2(w) as int) < p < Pow2(w)
    ensures Low(x, w) == Low(x + p, w) <==> p == 0
  {
    var m := Pow2(w);
    if Low(x, w) == Low(x + p, w) && p != 0 {
      DivMod(x, m);
      DivMod(x + p, m);
      var q := (x + p) / m - x / m;
      assert p == q * m by {
        assert ((x + p) / m - x / m) * m == ((x + p) / m) * m - (x / m) * m;
      }
      assert false by {
        NoMultiple(q, m, p);
      }
    }
  }

  lemma NoMultiple(q: int, m: int, p: int)
    requires p == q * m && -m < p < m
    ensures p == 0
  {
    if q > 0 {
      MulLeq(1, q, m);
    } else if q < 0 {
      MulLeq(1, -q, m);
    }
  }

  lemma ZeroProduct(x: int, y: int)
    ensures x * y == 0 <==> x == 0 || y == 0
  {
  }

  /** One cycle before the bound only the far corner can be unfinished. */
  lemma OthersDone(run: Run, a: Matrix, w: Matrix, k: nat, row: nat, col: nat, t: nat)
    requires run.Valid() && Operands(run, a, w, k) && Skewed(run, a, w, k)
    requires run.Cell(row, col) && (row < run.rows - 1 || col < run.cols - 1)
    requires t == LatencyCycles(run.rows, run.cols, k) - 1 && t < |run.states|
    ensures EntryDone(run, a, w, k, t, row, col)
  {
    PartialProduct(run, a, w, k, row, col, t);
  }

  /** The far corner lacks exactly its last product. */
  lemma CornerDone(run: Run, a: Matrix, w: Matrix, k: nat, t: nat)
    requires run.Valid() && Operands(run, a, w, k) && Skewed(run, a, w, k)
    requires run.rows > 0 && run.cols > 0 && k > 0
    requires t == LatencyCycles(run.rows, run.cols, k) - 1 && t < |run.states|
    ensures EntryDone(run, a, w, k, t, run.rows - 1, run.cols - 1)
            <==> a[run.rows - 1][k - 1] == 0 || w[k - 1][run.cols - 1] == 0
  {
    var row, col := run.rows - 1, run.cols - 1;
    PartialProduct(run, a, w, k, row, col, t);
    var x, y := a[row][k - 1], w[k - 1][col];
    ProductFits(x, y, run.block.dataWidth);
    Pow2Mono(run.block.dataWidth + run.block.dataWidth, run.accWidth);
    OffBy(Dot(a, w, row, col, k - 1), x * y, run.accWidth);
    ZeroProduct(x, y);
    assert Seen(t, row + col, k) == k - 1;
  }

  /** The bound is exact: one cycle earlier the array is right exactly when one
      factor of the last product to reach the far corner is zero. */
  lemma LatencyTight(run: Run, a: Matrix, w: Matrix, k: nat, t: nat)
    requires run.Valid() && Operands(run, a, w, k) && Skewed(run, a, w, k)
    requires run.rows > 0 && run.cols > 0 && k > 0
    requires t == LatencyCycles(run.rows, run.cols, k) - 1 && t < |run.states|
    ensures HoldsProduct(run, a, w, k, t)
            <==> a[run.rows - 1][k - 1] == 0 || w[k - 1][run.cols - 1] == 0
  {
    CornerDone(run, a, w, k, t);
    forall row, col | 0 <= row < run.rows && 0 <= col < run.cols
                      && (row < run.rows - 1 || col < run.cols - 1)
      ensures EntryDone(run, a, w, k, t, row, col)
    {
      OthersDone(run, a, w, k, row, col, t);
    }
  }
}
