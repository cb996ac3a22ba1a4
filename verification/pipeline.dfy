/** Stages instantiated side by side and wired output to input: the whole
    pipeline loses, duplicates and reorders nothing. */
module Pipeline {
  import opened Rtl
  import opened Semantics
  import opened Simulation
  import opened Depends
  import opened Settling
  import opened Bound
  import opened Range
  import opened ReadyValid
  import opened Stages
  import opened Streams
  import opened Runs
  import RegisterFifo
  import Gates

  /** Output port `from` of instance i drives input port `to` of instance j
      through the parent signal `wire`. */
  predicate Link(t: Tree, i: nat, from: Signal, j: nat, to: Signal, wire: Signal)
    requires i < |t.instances| && j < |t.instances|
  {
    Conn(from, wire) in t.instances[i].outputs && Conn(to, wire) in t.instances[j].inputs
  }

  /** The output channel of one instance is the input channel of another. */
  predicate Feeds(t: Tree, i: nat, n: StageNet, j: nat, n': StageNet, w: Channel)
    requires i < |t.instances| && j < |t.instances|
  {
    && Link(t, i, n.Output().valid, j, n'.Input().valid, w.valid)
    && Link(t, j, n'.Input().ready, i, n.Output().ready, w.ready)
    && |n.Output().bits| == |n'.Input().bits| == |w.bits|
    && forall k | 0 <= k < |w.bits| ::
         Link(t, i, n.Output().bits[k], j, n'.Input().bits[k], w.bits[k])
  }

  lemma LinkCarries(t: Tree, s: State, i: nat, from: Signal, j: nat, to: Signal, wire: Signal)
    requires i < |t.instances| && j < |t.instances| && Link(t, i, from, j, to, wire)
    requires Fits(t, s) && Sane(t) && Settled(t, s) && AllInRange(t, s)
    ensures Get(s.kids[i].Values(), from) == Get(s.kids[j].Values(), to)
  {
    assert ConnectionsOk(t.m, t.instances[i]) && ConnectionsOk(t.m, t.instances[j]);
    var oc, ic := Conn(from, wire), Conn(to, wire);
    assert OutputOk(t.instances[i], s.Values(), s.kids[i], oc);
    assert InputOk(t.instances[j], s.Values(), s.kids[j], ic);
    assert IsOutput(t.instances[i].child.m, from);
    assert AllInRange(t.Child(i), s.kids[i]);
    Gates.MaskedSmall(Get(s.kids[i].Values(), from), t.m.WidthOf(wire));
    Gates.MaskedSmall(Get(s.Values(), wire), t.m.WidthOf(wire));
  }

  lemma ItemCarries(t: Tree, s: State, i: nat, from: Channel, j: nat, to: Channel, w: Channel)
    requires i < |t.instances| && j < |t.instances|
    requires |from.bits| == |to.bits| == |w.bits|
    requires forall k | 0 <= k < |w.bits| :: Link(t, i, from.bits[k], j, to.bits[k], w.bits[k])
    requires Fits(t, s) && Sane(t) && Settled(t, s) && AllInRange(t, s)
    ensures RegisterFifo.ChannelItem(s.kids[i].store, from) == RegisterFifo.ChannelItem(s.kids[j].store, to)
  {
    forall k | 0 <= k < |w.bits|
      ensures Get(s.kids[i].Values(), from.bits[k]) == Get(s.kids[j].Values(), to.bits[k])
    {
      LinkCarries(t, s, i, from.bits[k], j, to.bits[k], w.bits[k]);
    }
  }

  /** In a settled state the two ends of a link agree in every signal. */
  lemma FeedsCarries(t: Tree, s: State, i: nat, n: StageNet, j: nat, n': StageNet, w: Channel)
    requires i < |t.instances| && j < |t.instances| && Feeds(t, i, n, j, n', w)
    requires Fits(t, s) && Sane(t) && Settled(t, s) && AllInRange(t, s)
    ensures Meets(StageObserve(s.kids[i].store, n), StageObserve(s.kids[j].store, n'))
  {
    LinkCarries(t, s, i, n.Output().valid, j, n'.Input().valid, w.valid);
    LinkCarries(t, s, j, n'.Input().ready, i, n.Output().ready, w.ready);
    ItemCarries(t, s, i, n.Output(), j, n'.Input(), w);
  }

  lemma KidState(t: Tree, s: State, i: nat)
    requires i < |t.instances| && Fits(t, s)
    ensures ValidPath(t, [i]) && At(t, [i]) == t.Child(i) && StateAt(t, s, [i]) == s.kids[i]
  {
    assert [i][1..] == [];
  }

  /** Every edge adds one cycle to the trace of every instance. */
  lemma KidTraceStep(t: Tree, events: seq<Event>, i: nat, n: StageNet)
    requires |events| > 0 && i < |t.instances| && ValidPath(t, [i])
    ensures
      var before, e := events[..|events| - 1], events[|events| - 1];
      TraceOf(t, events, [i], n)
      == if e.Edge? then
           TraceOf(t, before, [i], n)
           + [StageObserve(Run(t, Start(t), before).kids[i].store, n)]
         else TraceOf(t, before, [i], n)
  {
    KidState(t, Run(t, Start(t), events[..|events| - 1]), i);
  }

  /** The traces of linked instances are linked. */
  lemma {:induction false} TracesLinked(t: Tree, events: seq<Event>, i: nat, n: StageNet,
                                        j: nat, n': StageNet, w: Channel)
    requires Settleable(t) && External(t, events)
    requires i < |t.instances| && j < |t.instances| && Feeds(t, i, n, j, n', w)
    requires ValidPath(t, [i]) && ValidPath(t, [j])
    ensures TracesMeet(t, events, i, n, j, n')
    decreases |events|
  {
    if events != [] {
      TracesLinked(t, events[..|events| - 1], i, n, j, n', w);
      RunCarries(t, events[..|events| - 1], i, n, j, n', w);
      LinkedStep(t, events, i, n, j, n');
    }
  }

  predicate TracesMeet(t: Tree, events: seq<Event>, i: nat, n: StageNet, j: nat, n': StageNet)
    requires ValidPath(t, [i]) && ValidPath(t, [j])
  {
    Linked(TraceOf(t, events, [i], n), TraceOf(t, events, [j], n'))
  }

  lemma LinkedStep(t: Tree, events: seq<Event>, i: nat, n: StageNet, j: nat, n': StageNet)
    requires i < |t.instances| && j < |t.instances| && ValidPath(t, [i]) && ValidPath(t, [j])
    requires |events| > 0
    requires
      var before := events[..|events| - 1];
      var s := Run(t, Start(t), before);
      && TracesMeet(t, before, i, n, j, n')
      && Meets(StageObserve(s.kids[i].store, n), StageObserve(s.kids[j].store, n'))
    ensures TracesMeet(t, events, i, n, j, n')
  {
    var before := events[..|events| - 1];
    var s := Run(t, Start(t), before);
    KidTraceStep(t, events, i, n);
    KidTraceStep(t, events, j, n');
    LinkedGrow(TraceOf(t, before, [i], n), StageObserve(s.kids[i].store, n),
               TraceOf(t, before, [j], n'), StageObserve(s.kids[j].store, n'));
  }

  lemma RunCarries(t: Tree, events: seq<Event>, i: nat, n: StageNet, j: nat, n': StageNet, w: Channel)
    requires Settleable(t) && External(t, events)
    requires i < |t.instances| && j < |t.instances| && Feeds(t, i, n, j, n', w)
    ensures
      var s := Run(t, Start(t), events);
      Meets(StageObserve(s.kids[i].store, n), StageObserve(s.kids[j].store, n'))
  {
    RunSettled(t, events);
    FeedsCarries(t, Run(t, Start(t), events), i, n, j, n', w);
  }

  /** A pipeline of n instances: which instance holds which stage, and the parent
      channels between them. */
  datatype Chain = Chain(slots: seq<nat>, nets: seq<StageNet>, links: seq<Channel>)
  {
    function Kinds(): (kinds: seq<Stage>)
      ensures |kinds| == |nets|
      ensures forall k | 0 <= k < |nets| :: kinds[k] == nets[k].Kind()
    {
      seq(|nets|, k requires 0 <= k < |nets| => nets[k].Kind())
    }
  }

  predicate IsPipeline(t: Tree, c: Chain) {
    && |c.slots| == |c.nets| == |c.links| + 1
    && (forall k | 0 <= k < |c.slots| ::
          && c.slots[k] < |t.instances|
          && HasStage(t.Child(c.slots[k]).m, c.nets[k])
          && NoInitial(t.Child(c.slots[k]).m, c.nets[k]))
    && (forall k | 0 <= k < |c.links| ::
          Feeds(t, c.slots[k], c.nets[k], c.slots[k + 1], c.nets[k + 1], c.links[k]))
  }

  /** The traces of all stages over a run. */
  function Traces(t: Tree, events: seq<Event>, c: Chain): (traces: seq<Trace>)
    requires IsPipeline(t, c)
    ensures |traces| == |c.nets|
    ensures forall k | 0 <= k < |c.nets| :: traces[k] == KidTrace(t, events, c, k)
  {
    seq(|c.nets|, k requires 0 <= k < |c.nets| => KidTrace(t, events, c, k))
  }

  function KidTrace(t: Tree, events: seq<Event>, c: Chain, k: nat): Trace
    requires IsPipeline(t, c) && k < |c.nets|
  {
    KidState(t, Start(t), c.slots[k]);
    TraceOf(t, events, [c.slots[k]], c.nets[k])
  }

  lemma PipelineTrace(t: Tree, events: seq<Event>, c: Chain, k: nat)
    requires Settleable(t) && External(t, events) && IsPipeline(t, c) && k < |c.nets|
    ensures IsTrace(c.nets[k].Kind(), KidTrace(t, events, c, k))
  {
    KidState(t, Start(t), c.slots[k]);
    StageRun(t, events, [c.slots[k]], c.nets[k]);
  }

  lemma PipelineLink(t: Tree, events: seq<Event>, c: Chain, k: nat)
    requires Settleable(t) && External(t, events) && IsPipeline(t, c) && k + 1 < |c.nets|
    ensures Linked(KidTrace(t, events, c, k), KidTrace(t, events, c, k + 1))
  {
    KidState(t, Start(t), c.slots[k]);
    KidState(t, Start(t), c.slots[k + 1]);
    TracesLinked(t, events, c.slots[k], c.nets[k], c.slots[k + 1], c.nets[k + 1], c.links[k]);
  }

  lemma PipelineTraces(t: Tree, events: seq<Event>, c: Chain)
    requires Settleable(t) && External(t, events) && IsPipeline(t, c)
    requires forall k | 0 <= k < |c.nets| :: ResetFree(Traces(t, events, c)[k])
    ensures IsChain(c.Kinds(), Traces(t, events, c))
  {
    forall k | 0 <= k < |c.nets| {
      PipelineTrace(t, events, c, k);
    }
    forall k | 0 <= k < |c.nets| - 1 {
      PipelineLink(t, events, c, k);
    }
  }

  /** End to end for a pipeline of generated stages: on every run without resets
      the accepted payloads are the delivered ones followed by what the stages
      hold, last stage first, and the stages hold no more than their capacities. */
  lemma PipelineConserves(t: Tree, events: seq<Event>, c: Chain)
    requires Settleable(t) && External(t, events) && IsPipeline(t, c)
    requires forall k | 0 <= k < |c.nets| :: ResetFree(Traces(t, events, c)[k])
    ensures
      var traces := Traces(t, events, c);
      && Accepted(traces[0]) == Delivered(traces[|traces| - 1]) + Contents(traces, |traces|)
      && |Contents(traces, |traces|)| <= TotalCapacity(c.Kinds(), |c.nets|)
  {
    PipelineTraces(t, events, c);
    ChainConservation(c.Kinds(), Traces(t, events, c));
  }
}
