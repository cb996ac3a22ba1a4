/** Field by field: what leaves a stage on the output field of a name is what entered
    on the input field of that name, in whatever order the two bundles list them. */
module Fields {
  import opened Rtl
  import opened Semantics
  import opened Words
  import opened Simulation
  import opened Range
  import opened ReadyValid
  import opened Emission
  import opened Builder
  import opened Stages
  import opened Streams
  import opened Runs
  import opened Equivalence

  /** Field k of every item. */
  function Column(items: seq<Item>, k: nat): (words: seq<Word>)
    ensures |words| == |items|
  {
    seq(|items|, i requires 0 <= i < |items| => if k < |items[i]| then items[i][k] else 0)
  }

  lemma ColumnJoin(a: seq<Item>, b: seq<Item>, k: nat)
    ensures Column(a + b, k) == Column(a, k) + Column(b, k)
  {
  }

  /** What a signal carries in the cycles in which its channel transfers. */
  function Passing(t: Tree, events: seq<Event>, p: Path, clock: Signal, valid: Signal, ready: Signal, x: Signal)
    : seq<Word>
    requires ValidPath(t, p)
    decreases |events|
  {
    if events == [] then []
    else
      var before, e := events[..|events| - 1], events[|events| - 1];
      var values := StateAt(t, Run(t, Start(t), before), p).store.values;
      Passing(t, before, p, clock, valid, ready, x)
      + if e.Edge? && EdgesAt(p, e.edges).Rises(clock) && Get(values, valid) != 0 && Get(values, ready) != 0
        then [Get(values, x)] else []
  }

  lemma CycleColumns(st: Store, n: StageNet, k: nat)
    ensures
      var c := StageObserve(st, n);
      && (k < |n.Input().bits| ==>
            Column(Taken(c), k)
            == if Get(st.values, n.Input().valid) != 0 && Get(st.values, n.Input().ready) != 0
               then [Get(st.values, n.Input().bits[k])] else [])
      && (k < |n.Output().bits| ==>
            Column(Given(c), k)
            == if Get(st.values, n.Output().valid) != 0 && Get(st.values, n.Output().ready) != 0
               then [Get(st.values, n.Output().bits[k])] else [])
  {
  }

  /** Field k of what the stage accepted and delivered, read off the signals. */
  predicate ColumnsPass(t: Tree, events: seq<Event>, p: Path, n: StageNet, k: nat)
    requires ValidPath(t, p) && k < |n.Input().bits| && k < |n.Output().bits|
  {
    var i, o, trace := n.Input(), n.Output(), TraceOf(t, events, p, n);
    && Column(Accepted(trace), k) == Passing(t, events, p, n.Clock(), i.valid, i.ready, i.bits[k])
    && Column(Delivered(trace), k) == Passing(t, events, p, n.Clock(), o.valid, o.ready, o.bits[k])
  }

  lemma ColumnsGrow(trace: Trace, st: Store, n: StageNet, k: nat)
    requires k < |n.Input().bits| && k < |n.Output().bits|
    ensures
      var more := trace + [StageObserve(st, n)];
      && Column(Accepted(more), k)
         == Column(Accepted(trace), k)
            + (if Get(st.values, n.Input().valid) != 0 && Get(st.values, n.Input().ready) != 0
               then [Get(st.values, n.Input().bits[k])] else [])
      && Column(Delivered(more), k)
         == Column(Delivered(trace), k)
            + (if Get(st.values, n.Output().valid) != 0 && Get(st.values, n.Output().ready) != 0
               then [Get(st.values, n.Output().bits[k])] else [])
  {
    AcceptedOneMore(trace, StageObserve(st, n));
    ColumnJoin(Accepted(trace), Taken(StageObserve(st, n)), k);
    ColumnJoin(Delivered(trace), Given(StageObserve(st, n)), k);
    CycleColumns(st, n, k);
  }

  predicate Rises(e: Event, p: Path, clock: Signal) {
    e.Edge? && EdgesAt(p, e.edges).Rises(clock)
  }

  lemma TraceUnfold(t: Tree, events: seq<Event>, p: Path, n: StageNet)
    requires ValidPath(t, p) && events != []
    ensures
      var before := events[..|events| - 1];
      TraceOf(t, events, p, n)
      == if Rises(events[|events| - 1], p, n.Clock())
         then TraceOf(t, before, p, n) + [StageObserve(StateAt(t, Run(t, Start(t), before), p).store, n)]
         else TraceOf(t, before, p, n)
  {
  }

  lemma PassingUnfold(t: Tree, events: seq<Event>, p: Path, clock: Signal, valid: Signal, ready: Signal, x: Signal)
    requires ValidPath(t, p) && events != []
    ensures
      var before := events[..|events| - 1];
      var values := StateAt(t, Run(t, Start(t), before), p).store.values;
      Passing(t, events, p, clock, valid, ready, x)
      == if Rises(events[|events| - 1], p, clock)
         then Passing(t, before, p, clock, valid, ready, x)
              + (if Get(values, valid) != 0 && Get(values, ready) != 0 then [Get(values, x)] else [])
         else Passing(t, before, p, clock, valid, ready, x)
  {
  }

  lemma ColumnsStep(t: Tree, events: seq<Event>, p: Path, n: StageNet, k: nat)
    requires ValidPath(t, p) && k < |n.Input().bits| && k < |n.Output().bits| && events != []
    requires ColumnsPass(t, events[..|events| - 1], p, n, k)
    ensures ColumnsPass(t, events, p, n, k)
  {
    var before, i, o := events[..|events| - 1], n.Input(), n.Output();
    TraceUnfold(t, events, p, n);
    PassingUnfold(t, events, p, n.Clock(), i.valid, i.ready, i.bits[k]);
    PassingUnfold(t, events, p, n.Clock(), o.valid, o.ready, o.bits[k]);
    ColumnsGrow(TraceOf(t, before, p, n), StateAt(t, Run(t, Start(t), before), p).store, n, k);
  }

  lemma {:induction false} ColumnsAlways(t: Tree, events: seq<Event>, p: Path, n: StageNet, k: nat)
    requires ValidPath(t, p) && k < |n.Input().bits| && k < |n.Output().bits|
    ensures ColumnsPass(t, events, p, n, k)
    decreases |events|
  {
    if events != [] {
      ColumnsAlways(t, events[..|events| - 1], p, n, k);
      ColumnsStep(t, events, p, n, k);
    }
  }

  lemma AcceptedOneMore(trace: Trace, c: Cycle)
    ensures Accepted(trace + [c]) == Accepted(trace) + Taken(c)
    ensures Delivered(trace + [c]) == Delivered(trace) + Given(c)
  {
    assert (trace + [c])[..|trace|] == trace;
  }

  /** On every reset-free run of a stage built between two bundle interfaces, the
      words that entered on the input field of a name are those that left on the
      output field of that name, followed by the ones still inside. */
  lemma FieldsConserved(d: Deployment, input: ReadyValidRef, output: ReadyValidRef, j: nat, k: nat)
    requires d.Valid() && ResetFree(d.Trace()) && FieldsPaired(input, output, d.n.Input(), d.n.Output())
    requires input.payload.Bundle? && output.payload.Bundle?
    requires |input.channel.bits| == |input.payload.leaves|
    requires |output.channel.bits| == |output.payload.leaves|
    requires k < |output.payload.leaves| && LastOf(input.payload.leaves, output.payload.leaves[k].path, j)
    ensures
      var st := StateAt(d.t, Run(d.t, Start(d.t), d.events), d.p).store;
      var i, o := input.channel, output.channel;
      && StageInv(st, d.n) && |StageQueue(st, d.n)| <= Capacity(d.n.Kind())
      && Passing(d.t, d.events, d.p, d.n.Clock(), i.valid, i.ready, i.bits[j])
         == Passing(d.t, d.events, d.p, d.n.Clock(), o.valid, o.ready, o.bits[k])
            + Column(StageQueue(st, d.n), k)
  {
    var st := StateAt(d.t, Run(d.t, Start(d.t), d.events), d.p).store;
    StageConserves(d);
    PairedSignal(input, output, d.n.Input(), d.n.Output(), j, k);
    ColumnsAlways(d.t, d.events, d.p, d.n, k);
    ColumnJoin(Delivered(d.Trace()), StageQueue(st, d.n), k);
  }

  lemma PairedSignal(input: ReadyValidRef, output: ReadyValidRef, i: Channel, o: Channel, j: nat, k: nat)
    requires FieldsPaired(input, output, i, o) && input.payload.Bundle? && output.payload.Bundle?
    requires |input.channel.bits| == |input.payload.leaves| && k < |output.payload.leaves|
    requires LastOf(input.payload.leaves, output.payload.leaves[k].path, j)
    ensures k < |i.bits| && i.bits[k] == input.channel.bits[j] && o == output.channel
    ensures i.valid == input.channel.valid && i.ready == input.channel.ready
  {
    var a, leaf := input.payload.leaves, output.payload.leaves[k];
    assert FieldPaired(a, leaf, input.channel, i.bits[k]);
    var l: nat :| l < |a| && LastOf(a, leaf.path, l) && i.bits[k] == BitAt(input.channel, l);
    assert l == j;
  }
}
