/** Stage modules instantiated one after another in a parent that only wires them:
    the parent settles, whatever the stages, so its runs lose, duplicate and
    reorder nothing. */
module Series {
  import opened Rtl
  import opened Simulation
  import opened Depends
  import opened Settling
  import opened Bound
  import opened Range
  import opened Stages
  import opened StageModules
  import Ranking

  // ------------------------------------------------------ any wiring in series

  /** Where a signal of the parent lies: data entering stage k, readiness of stage
      k, or neither. */
  datatype Hop = Data(k: nat) | Ready(k: nat) | Aside

  /** Data takes a round per stage on its way down, readiness on its way up. */
  function HopRank(h: Hop, n: nat): nat {
    match h
    case Data(k) => k
    case Ready(k) => if k <= n then n - k else 0
    case Aside => 0
  }

  predicate FeedsStage(c: Conn, net: StageNet, k: nat, n: nat, hop: Hop) {
    && (Carries(net.Input(), c.port) ==> hop == Data(k))
    && (c.port == net.Output().ready ==> hop == Ready(k + 1))
    && HopRank(hop, n) < n
  }

  predicate LeavesStage(c: Conn, net: StageNet, k: nat, n: nat, hop: Hop) {
    && (Carries(net.Output(), c.port) ==> hop == Data(k + 1))
    && (c.port == net.Input().ready ==> hop == Ready(k))
    && 1 <= HopRank(hop, n) <= n
  }

  /** A parent that does nothing but connect stage k to stage k + 1. */
  ghost predicate InSeries(t: Tree, nets: seq<StageNet>, hop: Signal -> Hop) {
    && t.m.assignments == [] && AsyncFromInputs(t.m) && |t.instances| == |nets| > 0
    && forall k | 0 <= k < |nets| ::
         && t.Child(k) == Alone(t.Child(k).m)
         && Flows(t.Child(k).m, nets[k].Input(), nets[k].Output())
         && (forall c | c in t.instances[k].inputs :: FeedsStage(c, nets[k], k, |nets|, hop(c.parent)))
         && (forall c | c in t.instances[k].outputs :: LeavesStage(c, nets[k], k, |nets|, hop(c.parent)))
  }

  function HopRanks(t: Tree, n: nat, hop: Signal -> Hop): map<Signal, nat> {
    map x | x in Ranking.DrivenSignals(t) :: HopRank(hop(x), n)
  }

  /** Across a stage ranks fall, in both directions. */
  lemma HopsFall(oc: Conn, ic: Conn, net: StageNet, k: nat, n: nat, after: Hop, before: Hop)
    requires k < n && FeedsStage(ic, net, k, n, before) && LeavesStage(oc, net, k, n, after)
    requires (oc.port == net.Input().ready && ic.port == net.Output().ready)
             || (Carries(net.Output(), oc.port) && Carries(net.Input(), ic.port))
    ensures HopRank(after, n) > HopRank(before, n)
  {
  }

  lemma StageAcross(u: Tree, net: StageNet, a: Signal, b: Signal)
    requires u == Alone(u.m) && Flows(u.m, net.Input(), net.Output()) && PortDep(u, a, b) && IsInput(u.m, b)
    ensures (a == net.Input().ready && b == net.Output().ready)
            || (Carries(net.Output(), a) && Carries(net.Input(), b))
  {
    FlowsAcross(u.m, net.Input(), net.Output(), a, b);
  }

  lemma InputPort(t: Tree, i: nat, ic: Conn)
    requires Sane(t) && i < |t.instances| && ic in t.instances[i].inputs
    ensures IsInput(t.Child(i).m, ic.port)
  {
    assert ConnectionsOk(t.m, t.instances[i]);
  }

  lemma OutputListed(t: Tree, i: nat, oc: Conn)
    requires i < |t.instances| && oc in t.instances[i].outputs
    ensures oc.parent in Ranking.DrivenSignals(t)
  {
  }

  lemma SeriesEdge(t: Tree, nets: seq<StageNet>, hop: Signal -> Hop, a: Signal, b: Signal)
    requires Sane(t) && InSeries(t, nets, hop) && Edges(t)(a, b)
    ensures a in Ranking.DrivenSignals(t)
    ensures HopRank(hop(a), |nets|) > HopRank(hop(b), |nets|)
  {
    var i, oc, ic :| 0 <= i < |t.instances|
                     && oc in t.instances[i].outputs && ic in t.instances[i].inputs
                     && oc.parent == a && ic.parent == b
                     && PortDep(t.Child(i), oc.port, ic.port);
    InputPort(t, i, ic);
    OutputListed(t, i, oc);
    StageAcross(t.Child(i), nets[i], oc.port, ic.port);
    HopsFall(oc, ic, nets[i], i, |nets|, hop(a), hop(b));
  }

  lemma SeriesRanks(t: Tree, nets: seq<StageNet>, hop: Signal -> Hop)
    requires Sane(t) && InSeries(t, nets, hop)
    ensures RankOk(t, HopRanks(t, |nets|, hop))
  {
    var n, r := |nets|, HopRanks(t, |nets|, hop);
    forall a, b | Depends.Edge(t, a, b)
      ensures Rk(r, a) > Rk(r, b)
    {
      SeriesEdge(t, nets, hop, a, b);
    }
    forall i, c | 0 <= i < |t.instances| && c in t.instances[i].outputs
      ensures 1 <= Rk(r, c.parent) <= Limit(t)
    {
      assert LeavesStage(c, nets[i], i, n, hop(c.parent));
    }
    forall i, c | 0 <= i < |t.instances| && c in t.instances[i].inputs
      ensures Rk(r, c.parent) < Limit(t)
    {
      assert FeedsStage(c, nets[i], i, n, hop(c.parent));
    }
  }

  /** Although data going down and readiness going up make a cycle of instances,
      one round per stage is enough for both. */
  lemma SeriesSettleable(t: Tree, nets: seq<StageNet>, hop: Signal -> Hop)
    requires Sane(t) && InSeries(t, nets, hop)
    ensures Settleable(t)
  {
    SeriesRanks(t, nets, hop);
    forall k | 0 <= k < |t.instances|
      ensures Levelled(t.Child(k)) && Pure(t.Child(k))
    {
      LayeredPure(t.Child(k).m);
      LayeredSettles(t.Child(k).m);
    }
  }
}
