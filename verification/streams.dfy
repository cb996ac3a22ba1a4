/** Ready/valid channels as seen cycle by cycle, the queue a buffering stage
    must implement, and what follows for any trace of such a stage. */
module Streams {
  import opened Words

  /** One payload: the values of its fields. */
  type Item = seq<Word>

  /** What a stage's two channels carry in one settled clock cycle. */
  datatype Cycle = Cycle(
    reset: bool,
    inValid: bool, inReady: bool, inItem: Item,
    outValid: bool, outReady: bool, outItem: Item)
  {
    predicate Accepts() { inValid && inReady }
    predicate Delivers() { outValid && outReady }
  }

  type Trace = seq<Cycle>

  function Taken(c: Cycle): seq<Item> {
    if c.Accepts() then [c.inItem] else []
  }

  /** The queue after a cycle: reset empties it; otherwise an accepted item
      joins at the back and a delivered one leaves at the front. */
  function QueueStep(q: seq<Item>, c: Cycle): seq<Item> {
    if c.reset then []
    else
      var full := q + Taken(c);
      if c.Delivers() && full != [] then full[1..] else full
  }

  function QueueAfter(q: seq<Item>, trace: Trace): seq<Item>
    decreases |trace|
  {
    if trace == [] then q
    else QueueStep(QueueAfter(q, trace[..|trace| - 1]), trace[|trace| - 1])
  }

  lemma QueueUnfold(trace: Trace, n: nat)
    requires n < |trace|
    ensures QueueAfter([], trace[..n + 1]) == QueueStep(QueueAfter([], trace[..n]), trace[n])
  {
    assert trace[..n + 1][..n] == trace[..n];
  }

  /** The buffering stages the builder can emit; `Wires` is `rv_connect`. */
  datatype Stage = Fifo(depth: nat) | Skid | Wires

  function Capacity(stage: Stage): nat {
    match stage
    case Fifo(depth) => depth
    case Skid => 1
    case Wires => 0
  }

  /** What a stage holding `q` shows on its channels. */
  predicate Shows(stage: Stage, q: seq<Item>, c: Cycle) {
    && |q| <= Capacity(stage)
    && match stage
       case Fifo(depth) =>
         && (c.inReady <==> |q| < depth)
         && (c.outValid <==> q != [])
         && (q != [] ==> c.outItem == q[0])
       case Skid =>
         && (c.inReady <==> q == [] || c.outReady)
         && (c.outValid <==> q != [] || c.inValid)
         && c.outItem == (if q != [] then q[0] else c.inItem)
       case Wires =>
         && (c.inReady <==> c.outReady)
         && (c.outValid <==> c.inValid)
         && c.outItem == c.inItem
  }

  /** A trace of the stage: in every cycle it shows the queue of the cycles
      before. */
  ghost predicate IsTrace(stage: Stage, trace: Trace) {
    forall i | 0 <= i < |trace| :: Shows(stage, QueueAfter([], trace[..i]), trace[i])
  }

  predicate ResetFree(trace: Trace) {
    forall i | 0 <= i < |trace| :: !trace[i].reset
  }

  function Accepted(trace: Trace): seq<Item>
    decreases |trace|
  {
    if trace == [] then [] else Accepted(trace[..|trace| - 1]) + Taken(trace[|trace| - 1])
  }

  function Delivered(trace: Trace): seq<Item>
    decreases |trace|
  {
    if trace == [] then []
    else
      Delivered(trace[..|trace| - 1]) + Given(trace[|trace| - 1])
  }

  lemma IsTracePrefix(stage: Stage, trace: Trace, n: nat)
    requires IsTrace(stage, trace) && n <= |trace|
    ensures IsTrace(stage, trace[..n])
  {
    forall i | 0 <= i < n
      ensures Shows(stage, QueueAfter([], trace[..n][..i]), trace[..n][i])
    {
      assert trace[..n][..i] == trace[..i];
    }
  }

  /** A delivered item is the oldest one the stage has accepted and not yet
      delivered, and the stage never exceeds its capacity. */
  lemma StageStep(stage: Stage, q: seq<Item>, c: Cycle)
    requires Shows(stage, q, c) && !c.reset
    ensures q + Taken(c) == Given(c) + QueueStep(q, c)
    ensures |QueueStep(q, c)| <= Capacity(stage)
  {
    var full := q + Taken(c);
    if c.Delivers() {
      assert full != [] && full[0] == c.outItem;
      assert full == [full[0]] + full[1..];
    }
  }

  lemma Assoc(a: seq<Item>, b: seq<Item>, c: seq<Item>)
    ensures (a + b) + c == a + (b + c)
  {
  }

  function Given(c: Cycle): seq<Item> {
    if c.Delivers() then [c.outItem] else []
  }

  /** Conservation: on a reset-free trace the accepted items are the delivered
      items followed by what the stage still holds. */
  lemma {:induction false} Conservation(stage: Stage, trace: Trace)
    requires IsTrace(stage, trace) && ResetFree(trace)
    ensures Accepted(trace) == Delivered(trace) + QueueAfter([], trace)
    ensures |QueueAfter([], trace)| <= Capacity(stage)
    decreases |trace|
  {
    if trace != [] {
      var n := |trace| - 1;
      var before, c := trace[..n], trace[n];
      IsTracePrefix(stage, trace, n);
      Conservation(stage, before);
      var q, d := QueueAfter([], before), Delivered(before);
      StageStep(stage, q, c);
      Assoc(d, q, Taken(c));
      Assoc(d, Given(c), QueueStep(q, c));
    }
  }

  /** Resets or not, the stage never holds more than its capacity. */
  lemma {:induction false} Occupancy(stage: Stage, trace: Trace)
    requires IsTrace(stage, trace)
    ensures |QueueAfter([], trace)| <= Capacity(stage)
    decreases |trace|
  {
    if trace != [] {
      var n := |trace| - 1;
      IsTracePrefix(stage, trace, n);
      if !trace[n].reset {
        StageStep(stage, QueueAfter([], trace[..n]), trace[n]);
      }
    }
  }

  /** An offer that is not taken is repeated: while `outValid` meets no
      `outReady`, the next cycle shows the same item, whatever the inputs do. */
  lemma OfferStable(stage: Stage, trace: Trace, i: nat)
    requires IsTrace(stage, trace) && stage != Wires
    requires i + 1 < |trace| && !trace[i].reset
    requires trace[i].outValid && !trace[i].outReady
    ensures trace[i + 1].outValid && trace[i + 1].outItem == trace[i].outItem
  {
    var q := QueueAfter([], trace[..i]);
    assert Shows(stage, q, trace[i]);
    assert trace[..i + 1][..i] == trace[..i];
    assert QueueAfter([], trace[..i + 1]) == QueueStep(q, trace[i]);
    assert Shows(stage, QueueStep(q, trace[i]), trace[i + 1]);
  }

  // ------------------------------------------------------------ equivalence

  /** The same resets, offers and demands; what the input carries while nothing is
      offered may differ. */
  predicate SameInputs(c: Cycle, d: Cycle) {
    && c.reset == d.reset && c.inValid == d.inValid && c.outReady == d.outReady
    && (c.inValid ==> c.inItem == d.inItem)
  }

  /** The two traces are driven alike. */
  predicate SameDrive(a: Trace, b: Trace) {
    |a| == |b| && forall i | 0 <= i < |a| :: SameInputs(a[i], b[i])
  }

  /** The two stages answer alike: same handshakes, same item when one is
      offered. */
  predicate SameOffer(c: Cycle, d: Cycle) {
    && c.inReady == d.inReady && c.outValid == d.outValid
    && (c.outValid ==> c.outItem == d.outItem)
  }

  lemma SameCycle(stage: Stage, q: seq<Item>, c: Cycle, d: Cycle)
    requires Shows(stage, q, c) && Shows(stage, q, d) && SameInputs(c, d)
    ensures SameOffer(c, d) && QueueStep(q, c) == QueueStep(q, d)
  {
  }

  lemma {:induction false} SameQueue(stage: Stage, a: Trace, b: Trace, n: nat)
    requires IsTrace(stage, a) && IsTrace(stage, b) && SameDrive(a, b) && n <= |a|
    ensures QueueAfter([], a[..n]) == QueueAfter([], b[..n])
  {
    if n > 0 {
      SameQueue(stage, a, b, n - 1);
      QueueUnfold(a, n - 1);
      QueueUnfold(b, n - 1);
      var q := QueueAfter([], a[..n - 1]);
      assert SameInputs(a[n - 1], b[n - 1]);
      SameCycle(stage, q, a[n - 1], b[n - 1]);
    }
  }

  /** Two implementations of the same stage, driven alike, cannot be told apart:
      same handshakes every cycle, same item whenever one is offered. */
  lemma SameTrace(stage: Stage, a: Trace, b: Trace)
    requires IsTrace(stage, a) && IsTrace(stage, b) && SameDrive(a, b)
    ensures forall i | 0 <= i < |a| :: SameOffer(a[i], b[i])
  {
    forall i | 0 <= i < |a|
      ensures SameOffer(a[i], b[i])
    {
      SameQueue(stage, a, b, i);
      SameCycle(stage, QueueAfter([], a[..i]), a[i], b[i]);
    }
  }

  // ------------------------------------------------------ series composition

  /** The output channel of one cycle is the input channel of the other. */
  predicate Meets(c: Cycle, d: Cycle) {
    c.outValid == d.inValid && c.outReady == d.inReady && c.outItem == d.inItem
  }

  /** The output channel of one stage is the input channel of the next. */
  predicate Linked(a: Trace, b: Trace) {
    |a| == |b| && forall i | 0 <= i < |a| :: Meets(a[i], b[i])
  }

  lemma LinkedGrow(a: Trace, c: Cycle, b: Trace, d: Cycle)
    requires Linked(a, b) && Meets(c, d)
    ensures Linked(a + [c], b + [d])
  {
  }

  lemma {:induction false} LinkedStreams(a: Trace, b: Trace)
    requires Linked(a, b)
    ensures Delivered(a) == Accepted(b)
    decreases |a|
  {
    if a != [] {
      var n := |a| - 1;
      assert Meets(a[n], b[n]);
      LinkedStreams(a[..n], b[..n]);
    }
  }

  /** Traces of stages wired in series, each reset-free. */
  ghost predicate IsChain(stages: seq<Stage>, traces: seq<Trace>) {
    && |stages| == |traces| > 0
    && (forall k | 0 <= k < |stages| :: IsTrace(stages[k], traces[k]) && ResetFree(traces[k]))
    && (forall k | 0 <= k < |stages| - 1 :: Linked(traces[k], traces[k + 1]))
  }

  /** The contents of the first n stages, the furthest downstream first. */
  function Contents(traces: seq<Trace>, n: nat): seq<Item>
    requires n <= |traces|
  {
    if n == 0 then [] else QueueAfter([], traces[n - 1]) + Contents(traces, n - 1)
  }

  function TotalCapacity(stages: seq<Stage>, n: nat): nat
    requires n <= |stages|
  {
    if n == 0 then 0 else Capacity(stages[n - 1]) + TotalCapacity(stages, n - 1)
  }

  lemma {:induction false} ChainPrefix(stages: seq<Stage>, traces: seq<Trace>, n: nat)
    requires IsChain(stages, traces) && 0 < n <= |stages|
    ensures Accepted(traces[0]) == Delivered(traces[n - 1]) + Contents(traces, n)
    ensures |Contents(traces, n)| <= TotalCapacity(stages, n)
  {
    var k := n - 1;
    Conservation(stages[k], traces[k]);
    if k == 0 {
      assert Contents(traces, 0) == [];
      assert Contents(traces, 1) == QueueAfter([], traces[0]);
    } else {
      ChainPrefix(stages, traces, k);
      assert Linked(traces[k - 1], traces[k - 1 + 1]);
      LinkedStreams(traces[k - 1], traces[k]);
      Assoc(Delivered(traces[k]), QueueAfter([], traces[k]), Contents(traces, k));
    }
  }

  /** Stages in series are one stage: nothing is lost, duplicated or reordered,
      and the occupancy is bounded by the sum of the capacities. */
  lemma ChainConservation(stages: seq<Stage>, traces: seq<Trace>)
    requires IsChain(stages, traces)
    ensures Accepted(traces[0]) == Delivered(traces[|traces| - 1]) + Contents(traces, |traces|)
    ensures |Contents(traces, |traces|)| <= TotalCapacity(stages, |stages|)
  {
    ChainPrefix(stages, traces, |traces|);
  }
}
