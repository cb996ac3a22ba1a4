/** What the writes of one clock edge leave in a memory: at every address the data of
    the last enabled write to it, and nothing else changes. */
module MemoryWrites {
  import opened Words
  import opened Rtl
  import opened Semantics
  import opened Agreement
  import opened Simulation

  /** The write happens at this edge, at this address. */
  predicate Fires(m: Module, st: Store, edges: ClockEdges, w: MemoryWrite, mem: Signal, a: nat) {
    && w.mem == mem && m.Owns(mem) && (edges == AllClocks || w.clock in edges.active)
    && Eval(m, st, w.enable) != 0 && Low(Eval(m, st, w.addr), 64) == a
  }

  /** Write k is the last of the first n at the address. */
  predicate LastFires(m: Module, st: Store, edges: ClockEdges, mem: Signal, a: nat, n: nat, k: nat)
    requires n <= |m.memoryWrites|
  {
    && k < n && Fires(m, st, edges, m.memoryWrites[k], mem, a)
    && forall j | k < j < n :: !Fires(m, st, edges, m.memoryWrites[j], mem, a)
  }

  /** One write: the word at its address, if the memory has one, and no other. */
  lemma OneWriteAt(m: Module, st: Store, edges: ClockEdges, w: MemoryWrite, mems: Memories, mem: Signal, a: nat)
    requires mem in mems && a < |mems[mem]|
    ensures
      var after := WriteOne(m, st, edges, w, mems);
      && after.Keys == mems.Keys && |after[mem]| == |mems[mem]|
      && after[mem][a] == if Fires(m, st, edges, w, mem, a) then Low(Eval(m, st, w.data), m.WidthOf(mem))
                          else mems[mem][a]
  {
  }

  lemma {:induction false} WordAfter(m: Module, st: Store, edges: ClockEdges, mem: Signal, a: nat, n: nat)
    requires n <= |m.memoryWrites| && mem in st.mems && a < |st.mems[mem]|
    ensures
      var after := WritesApplied(m, st, edges, n);
      && mem in after && |after[mem]| == |st.mems[mem]|
      && (m.Owns(mem) ==> forall k: nat | LastFires(m, st, edges, mem, a, n, k) ::
            after[mem][a] == Low(Eval(m, st, m.memoryWrites[k].data), m.WidthOf(mem)))
      && ((forall j | 0 <= j < n :: !Fires(m, st, edges, m.memoryWrites[j], mem, a)) ==>
            after[mem][a] == st.mems[mem][a])
  {
    if n > 0 {
      var w := m.memoryWrites[n - 1];
      WordAfter(m, st, edges, mem, a, n - 1);
      OneWriteAt(m, st, edges, w, WritesApplied(m, st, edges, n - 1), mem, a);
      if !Fires(m, st, edges, w, mem, a) {
        forall k: nat | LastFires(m, st, edges, mem, a, n, k)
          ensures LastFires(m, st, edges, mem, a, n - 1, k)
        {
        }
      }
    }
  }

  /** After an edge every word of a memory is the data of the last enabled write at
      its address, evaluated before the edge, or what it was. */
  lemma EdgeWrites(m: Module, st: Store, edges: ClockEdges, mem: Signal, a: nat)
    requires mem in st.mems && a < |st.mems[mem]|
    ensures
      var after, n := LatchStore(m, st, edges).mems, |m.memoryWrites|;
      && mem in after && |after[mem]| == |st.mems[mem]|
      && (m.Owns(mem) ==> forall k: nat | LastFires(m, st, edges, mem, a, n, k) ::
            after[mem][a] == Low(Eval(m, st, m.memoryWrites[k].data), m.WidthOf(mem)))
      && ((forall j | 0 <= j < n :: !Fires(m, st, edges, m.memoryWrites[j], mem, a)) ==>
            after[mem][a] == st.mems[mem][a])
  {
    WordAfter(m, st, edges, mem, a, |m.memoryWrites|);
  }

  /** A write outside the memory changes no word of it. */
  lemma OutsideChangesNothing(m: Module, st: Store, edges: ClockEdges, w: MemoryWrite, mems: Memories)
    requires w.mem in mems ==> |mems[w.mem]| <= Low(Eval(m, st, w.addr), 64)
    ensures WriteOne(m, st, edges, w, mems) == mems
  {
  }

  /** What was written is read back at its address, and reads past the end are 0. */
  lemma ReadsBackWritten(m: Module, st: Store, mem: Signal, addr: Expr, a: nat)
    requires Low(Eval(m, st, addr), 64) == a
    ensures Eval(m, st, MemRead(mem, addr))
         == if mem in st.mems && a < |st.mems[mem]| then st.mems[mem][a] else 0
  {
  }

  // ------------------------------------------------ a complement as enable

  /** A write enabled by a complement of fewer than 128 bits always happens; that is
      right exactly when the complemented value is 0. */
  lemma EnabledByNot(m: Module, st: Store, edges: ClockEdges, w: MemoryWrite, c: Expr)
    requires w.enable == Not(c) && WellTyped(m, c) && TypeOf(m, c) == Some(UInt(1)) && InRange(m, st)
    requires Disciplined(m, c) && Canonical(m, c)
    requires m.Owns(w.mem) && (edges == AllClocks || w.clock in edges.active)
    ensures Fires(m, st, edges, w, w.mem, Low(Eval(m, st, w.addr), 64))
    ensures Fires(m, st, edges, w, w.mem, Low(Eval(m, st, w.addr), 64)) == (Meaning(m, st, w.enable) == 1)
            <==> Meaning(m, st, c) == 0
  {
    NotBit(m, st, c);
  }

  /** A clock, an input and a memory of two bits written while the input is low. */
  function WrittenWhileLow(): Module {
    Module(0, [SignalInfo(UInt(1), Input), SignalInfo(UInt(1), Input), SignalInfo(UInt(1), Mem(1, 2))], [],
           [MemoryWrite(Signal(0, 2), Signal(0, 0), Not(Ref(Signal(0, 1))), LitU(0, 1), LitU(1, 1))], [], [])
  }

  /** With the input high the write happens all the same. */
  lemma EnabledByNotWitness()
    ensures
      var m, a, mem := WrittenWhileLow(), Signal(0, 1), Signal(0, 2);
      var st := Store(map[a := 1], map[mem := [0, 0]]);
      && Meaning(m, st, m.memoryWrites[0].enable) == 0
      && mem in LatchStore(m, st, AllClocks).mems && LatchStore(m, st, AllClocks).mems[mem] == [1, 0]
  {
    var m, a, mem := WrittenWhileLow(), Signal(0, 1), Signal(0, 2);
    var st := Store(map[a := 1], map[mem := [0, 0]]);
    BitAtOne(m, st, a);
    WrittenAnyway(m, st, m.memoryWrites[0]);
  }

  lemma WrittenAnyway(m: Module, st: Store, w: MemoryWrite)
    requires m.memoryWrites == [w] && w.addr == LitU(0, 1) && w.data == LitU(1, 1)
    requires m.Owns(w.mem) && m.WidthOf(w.mem) == 1 && w.mem in st.mems && |st.mems[w.mem]| == 2
    requires Eval(m, st, w.enable) != 0
    ensures w.mem in LatchStore(m, st, AllClocks).mems
    ensures LatchStore(m, st, AllClocks).mems[w.mem] == [1, st.mems[w.mem][1]]
  {
    SmallWords();
    OneEdgeWrite(m, st, w);
    LandsAtZero(m, st, w, st.mems);
  }

  lemma BitAtOne(m: Module, st: Store, a: Signal)
    requires m == WrittenWhileLow() && a == Signal(0, 1) && st.values == map[a := 1]
    requires forall x | x in st.mems :: st.mems[x] == [0, 0]
    ensures Meaning(m, st, Not(Ref(a))) == 0 && Eval(m, st, Not(Ref(a))) != 0
  {
    assert Pow2(1) == 2;
    NotBit(m, st, Ref(a));
  }

  lemma OneEdgeWrite(m: Module, st: Store, w: MemoryWrite)
    requires m.memoryWrites == [w]
    ensures LatchStore(m, st, AllClocks).mems == WriteOne(m, st, AllClocks, w, st.mems)
  {
    assert WritesApplied(m, st, AllClocks, 0) == st.mems;
    assert WritesApplied(m, st, AllClocks, 1) == WriteOne(m, st, AllClocks, w, st.mems);
  }

  lemma LandsAtZero(m: Module, st: Store, w: MemoryWrite, mems: Memories)
    requires m.Owns(w.mem) && m.WidthOf(w.mem) == 1 && w.mem in mems && |mems[w.mem]| == 2
    requires Eval(m, st, w.enable) != 0 && Eval(m, st, w.addr) == 0 && Eval(m, st, w.data) == 1
    ensures WriteOne(m, st, AllClocks, w, mems)[w.mem] == [1, mems[w.mem][1]]
  {
    SmallWords();
  }

  lemma SmallWords()
    ensures Encode(0, 1) == 0 == Low(0, 64) && Encode(1, 1) == 1 == Low(1, 1)
  {
    assert Pow2(1) == 2;
    LowSmall(0, BITS);
    LowSmall(1, BITS);
    LowSmall(0, 1);
    LowSmall(1, 1);
    LowSmall(0, 64);
  }
}
