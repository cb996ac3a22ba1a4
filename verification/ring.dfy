/** A circular buffer of any positive depth and the queue it holds. */
module Ring {
  import opened Words

  /** The slot j places after r, for r below the depth and j at most the depth. */
  function Slot(r: nat, j: nat, depth: nat): (s: nat)
    requires r < depth && j <= depth
    ensures s < depth
  {
    if r + j < depth then r + j else r + j - depth
  }

  lemma SlotIsMod(r: nat, j: nat, depth: nat)
    requires r < depth && j <= depth
    ensures Slot(r, j, depth) == (r + j) % depth
  {
    if r + j < depth {
      DivModUnique(r + j, depth, 0, r + j);
    } else {
      DivModUnique(r + j, depth, 1, r + j - depth);
    }
  }

  /** The pointer increment of the generated FIFOs. */
  function NextPtr(p: nat, depth: nat): (q: nat)
    requires p < depth
    ensures q < depth
  {
    if p == depth - 1 then 0 else p + 1
  }

  /** The queue: `count` slots from the read pointer on. */
  function Queue<T>(slots: seq<T>, r: nat, count: nat): (q: seq<T>)
    requires r < |slots| && count <= |slots|
    ensures |q| == count
    ensures forall j | 0 <= j < count :: q[j] == slots[Slot(r, j, |slots|)]
  {
    seq(count, j requires 0 <= j < count => slots[Slot(r, j, |slots|)])
  }

  function CountAfter(n: nat, put: bool, get: bool): nat
    requires get ==> n > 0
  {
    n + (if put then 1 else 0) - (if get then 1 else 0)
  }

  /** One cycle of the buffer is one cycle of the queue, and the pointers stay
      `count` slots apart. */
  lemma Step<T>(slots: seq<T>, r: nat, w: nat, n: nat, put: bool, get: bool, x: T,
                slots': seq<T>, r': nat, w': nat)
    requires r < |slots| && n <= |slots| && w == Slot(r, n, |slots|)
    requires put ==> n < |slots|
    requires get ==> n > 0
    requires slots' == if put then slots[w := x] else slots
    requires r' == if get then NextPtr(r, |slots|) else r
    requires w' == if put then NextPtr(w, |slots|) else w
    ensures CountAfter(n, put, get) <= |slots|
    ensures w' == Slot(r', CountAfter(n, put, get), |slots|)
    ensures
      var full := Queue(slots, r, n) + if put then [x] else [];
      Queue(slots', r', CountAfter(n, put, get)) == if get then full[1..] else full
  {
    var depth, n' := |slots|, CountAfter(n, put, get);
    var full := Queue(slots, r, n) + if put then [x] else [];
    var q' := Queue(slots', r', n');
    forall j | 0 <= j < n'
      ensures q'[j] == full[if get then j + 1 else j]
    {
      var k := if get then j + 1 else j;
      assert Slot(r', j, depth) == Slot(r, k, depth);
      if put && k < n {
        assert Slot(r, k, depth) != w;
      }
    }
    assert q' == if get then full[1..] else full;
  }
}
