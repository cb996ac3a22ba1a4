/** Paths and reachability of a relation, shared by the cycle checks and the
    port-dependency analysis. */
module Paths {

  type Relation<!N> = (N, N) -> bool

  ghost predicate IsPath<N(!new)>(r: Relation<N>, p: seq<N>) {
    |p| > 0 && forall i | 0 <= i < |p| - 1 :: r(p[i], p[i + 1])
  }

  ghost predicate Joins<N(!new)>(r: Relation<N>, p: seq<N>, a: N, b: N) {
    IsPath(r, p) && p[0] == a && p[|p| - 1] == b
  }

  /** A path of at least one step. */
  ghost predicate Reaches<N(!new)>(r: Relation<N>, a: N, b: N) {
    exists p :: Joins(r, p, a, b) && |p| > 1
  }

  lemma StepReaches<N(!new)>(r: Relation<N>, a: N, b: N)
    requires r(a, b)
    ensures Reaches(r, a, b)
  {
    assert Joins(r, [a, b], a, b);
  }

  lemma ReachesTrans<N(!new)>(r: Relation<N>, a: N, b: N, c: N)
    requires Reaches(r, a, b) && Reaches(r, b, c)
    ensures Reaches(r, a, c)
  {
    var p :| Joins(r, p, a, b) && |p| > 1;
    var q :| Joins(r, q, b, c) && |q| > 1;
    var pq := p + q[1..];
    forall i | 0 <= i < |pq| - 1
      ensures r(pq[i], pq[i + 1])
    {
      if i >= |p| - 1 {
        var j := i - (|p| - 1);
        assert pq[i] == q[j] && pq[i + 1] == q[j + 1];
      }
    }
    assert Joins(r, pq, a, c);
  }

  /** Reaching is one step, or one step and then reaching. */
  lemma ReachesFirst<N(!new)>(r: Relation<N>, a: N, c: N) returns (b: N)
    requires Reaches(r, a, c)
    ensures r(a, b) && (b == c || Reaches(r, b, c))
  {
    var p :| Joins(r, p, a, c) && |p| > 1;
    b := p[1];
    assert r(p[0], p[1]);
    var q := p[1..];
    assert forall i | 0 <= i < |q| - 1 :: r(q[i], q[i + 1]) by {
      forall i | 0 <= i < |q| - 1
        ensures r(q[i], q[i + 1])
      {
        assert q[i] == p[i + 1] && q[i + 1] == p[i + 2];
      }
    }
    assert Joins(r, q, b, c);
  }

  /** No node reaches itself. */
  ghost predicate Acyclic<N(!new)>(r: Relation<N>) {
    forall a :: !Reaches(r, a, a)
  }

  ghost predicate ReachesCycle<N(!new)>(r: Relation<N>, a: N) {
    exists c :: Reaches(r, c, c) && (c == a || Reaches(r, a, c))
  }

  lemma ReachesSub<N(!new)>(r: Relation<N>, wider: Relation<N>, a: N, b: N)
    requires forall x, y | r(x, y) :: wider(x, y)
    requires Reaches(r, a, b)
    ensures Reaches(wider, a, b)
  {
    var p :| Joins(r, p, a, b) && |p| > 1;
    assert Joins(wider, p, a, b);
  }

  lemma AcyclicSub<N(!new)>(r: Relation<N>, wider: Relation<N>)
    requires forall x, y | r(x, y) :: wider(x, y)
    requires Acyclic(wider)
    ensures Acyclic(r)
  {
    forall a
      ensures !Reaches(r, a, a)
    {
      if Reaches(r, a, a) {
        ReachesSub(r, wider, a, a);
      }
    }
  }

  /** A relation along which a number falls has no cycle. */
  lemma {:induction false} RankedReaches<N(!new)>(r: Relation<N>, rank: N -> nat, p: seq<N>)
    requires forall x, y | r(x, y) :: rank(x) > rank(y)
    requires IsPath(r, p) && |p| > 1
    ensures rank(p[0]) > rank(p[|p| - 1])
    decreases |p|
  {
    assert r(p[0], p[1]);
    if |p| > 2 {
      var q := p[1..];
      forall i | 0 <= i < |q| - 1
        ensures r(q[i], q[i + 1])
      {
        assert r(p[i + 1], p[i + 2]);
      }
      RankedReaches(r, rank, q);
    }
  }

  lemma RankedAcyclic<N(!new)>(r: Relation<N>, rank: N -> nat)
    requires forall x, y | r(x, y) :: rank(x) > rank(y)
    ensures Acyclic(r)
  {
    forall a
      ensures !Reaches(r, a, a)
    {
      if Reaches(r, a, a) {
        var p :| Joins(r, p, a, a) && |p| > 1;
        RankedReaches(r, rank, p);
      }
    }
  }

  /** A relation that maps into one without cycles has none. */
  lemma AcyclicImage<N(!new), M(!new)>(r: Relation<N>, g: Relation<M>, f: N -> M)
    requires forall x, y | r(x, y) :: g(f(x), f(y))
    requires Acyclic(g)
    ensures Acyclic(r)
  {
    forall a
      ensures !Reaches(r, a, a)
    {
      if Reaches(r, a, a) {
        ReachesImage(r, g, f, a, a);
      }
    }
  }

  lemma ReachesImage<N(!new), M(!new)>(r: Relation<N>, g: Relation<M>, f: N -> M, a: N, b: N)
    requires forall x, y | r(x, y) :: g(f(x), f(y))
    requires Reaches(r, a, b)
    ensures Reaches(g, f(a), f(b))
  {
    var p: seq<N> :| Joins(r, p, a, b) && |p| > 1;
    var q := seq(|p|, i requires 0 <= i < |p| => f(p[i]));
    forall i | 0 <= i < |q| - 1
      ensures g(q[i], q[i + 1])
    {
      assert r(p[i], p[i + 1]);
    }
    assert Joins(g, q, f(a), f(b));
  }
}
