/** What running a generated stage shows from outside: conservation, stable
    offers, and that the register FIFO and the memory FIFO cannot be told
    apart. */
module Equivalence {
  import opened Simulation
  import opened Range
  import opened Bound
  import opened Stages
  import opened Streams
  import opened Runs

  /** A stage at a place in a design, and the calls made on the design. */
  datatype Deployment = Deployment(t: Tree, events: seq<Event>, p: Path, n: StageNet)
  {
    ghost predicate Valid() {
      && Settleable(t) && External(t, events) && ValidPath(t, p)
      && HasStage(At(t, p).m, n) && NoInitial(At(t, p).m, n)
    }

    /** What the stage exchanged, one cycle for every edge of its clock. */
    function Trace(): Trace
      requires ValidPath(t, p)
    {
      TraceOf(t, events, p, n)
    }
  }

  /** Two deployments of the same kind and depth, fed the same resets, offers and
      demands, answer alike in every cycle: in particular `rv_fifo` and
      `rv_mem_fifo`, although a reset neither clears the memory nor gates its
      writes. */
  lemma Indistinguishable(a: Deployment, b: Deployment)
    requires a.Valid() && b.Valid() && a.n.Kind() == b.n.Kind()
    requires SameDrive(a.Trace(), b.Trace())
    ensures forall i | 0 <= i < |a.Trace()| :: SameOffer(a.Trace()[i], b.Trace()[i])
  {
    StageRun(a.t, a.events, a.p, a.n);
    StageRun(b.t, b.events, b.p, b.n);
    SameTrace(a.n.Kind(), a.Trace(), b.Trace());
  }

  /** On a run whose clock edges all find the reset low, what the stage accepted is what
      it delivered followed by what its registers and memory hold. */
  lemma StageConserves(d: Deployment)
    requires d.Valid() && ResetFree(d.Trace())
    ensures
      var st := StateAt(d.t, Run(d.t, Start(d.t), d.events), d.p).store;
      && StageInv(st, d.n)
      && Accepted(d.Trace()) == Delivered(d.Trace()) + StageQueue(st, d.n)
      && |StageQueue(st, d.n)| <= Capacity(d.n.Kind())
  {
    StageRun(d.t, d.events, d.p, d.n);
    Conservation(d.n.Kind(), d.Trace());
  }

  /** Resets or not, the stage never holds more than its capacity. */
  lemma StageBounded(d: Deployment)
    requires d.Valid()
    ensures
      var st := StateAt(d.t, Run(d.t, Start(d.t), d.events), d.p).store;
      StageInv(st, d.n) && |StageQueue(st, d.n)| <= Capacity(d.n.Kind())
  {
    StageRun(d.t, d.events, d.p, d.n);
    Occupancy(d.n.Kind(), d.Trace());
  }

  /** A refused offer of a FIFO or skid buffer is repeated in the next cycle. */
  lemma StageOffersStable(d: Deployment, i: nat)
    requires d.Valid() && !d.n.WireStage? && i + 1 < |d.Trace()|
    requires !d.Trace()[i].reset && d.Trace()[i].outValid && !d.Trace()[i].outReady
    ensures d.Trace()[i + 1].outValid && d.Trace()[i + 1].outItem == d.Trace()[i].outItem
  {
    StageRun(d.t, d.events, d.p, d.n);
    OfferStable(d.n.Kind(), d.Trace(), i);
  }
}
