/** Memory writes of the flattened design: each level's writes, in their own
    order, do to that level's memories what they did before. */
module FlatWrites {
  import opened Words
  import opened Rtl
  import opened Semantics
  import opened Simulation
  import opened Depends
  import opened Runs
  import opened Flatten
  import opened FlatDesign
  import opened FlatEval
  import opened FlatSane

  /** One write, seen by one memory. */
  function Written(words: seq<Word>, addr: Word, data: Word): seq<Word> {
    if Masked(addr, 64) < |words| then Put(words, Masked(addr, 64), data) else words
  }

  lemma WriteSeen(mems: Memories, mem: Signal, addr: Word, data: Word, y: Signal)
    ensures WordsIn(WriteMem(mems, mem, addr, data), y)
         == if y == mem then Written(WordsIn(mems, y), addr, data) else WordsIn(mems, y)
    ensures WriteMem(mems, mem, addr, data).Keys == mems.Keys
  {
  }

  lemma WriteOneSeen(m: Module, st: Store, w: MemoryWrite, mems: Memories, y: Signal)
    ensures WordsIn(WriteOne(m, st, AllClocks, w, mems), y)
         == if y == w.mem && m.Owns(w.mem) && Eval(m, st, w.enable) != 0
            then Written(WordsIn(mems, y), Eval(m, st, w.addr),
                         Masked(Eval(m, st, w.data), m.WidthOf(w.mem)))
            else WordsIn(mems, y)
    ensures WriteOne(m, st, AllClocks, w, mems).Keys == mems.Keys
  {
    if m.Owns(w.mem) {
      WriteSeen(mems, w.mem, Eval(m, st, w.addr), Masked(Eval(m, st, w.data), m.WidthOf(w.mem)), y);
    }
  }

  lemma WritesStep(m: Module, st: Store, i: nat, y: Signal)
    requires i < |m.memoryWrites|
    ensures
      var w := m.memoryWrites[i];
      WordsIn(WritesApplied(m, st, AllClocks, i + 1), y)
      == if y == w.mem && m.Owns(w.mem) && Eval(m, st, w.enable) != 0
         then Written(WordsIn(WritesApplied(m, st, AllClocks, i), y), Eval(m, st, w.addr),
                      Masked(Eval(m, st, w.data), m.WidthOf(w.mem)))
         else WordsIn(WritesApplied(m, st, AllClocks, i), y)
  {
    WriteOneSeen(m, st, m.memoryWrites[i], WritesApplied(m, st, AllClocks, i), y);
  }

  lemma {:induction false} WritesKeys(m: Module, st: Store, i: nat)
    requires i <= |m.memoryWrites|
    ensures WritesApplied(m, st, AllClocks, i).Keys == st.mems.Keys
  {
    if i > 0 {
      var w := m.memoryWrites[i - 1];
      WritesKeys(m, st, i - 1);
      WriteOneSeen(m, st, w, WritesApplied(m, st, AllClocks, i - 1), w.mem);
    }
  }

  lemma {:induction false} WritesOfPrefix(t: Tree, ps: seq<Path>, n: nat, k: nat)
    requires n <= k <= |ps|
    ensures WritesOf(t, ps, n) <= WritesOf(t, ps, k)
    decreases k
  {
    if n < k {
      WritesOfPrefix(t, ps, n, k - 1);
    }
  }

  /** Write v does to memory z of one module what w does to memory y of the
      other. */
  predicate WriteAlike(f: Module, m: Module, flat: Store, local: Store, v: MemoryWrite, w: MemoryWrite,
                       z: Signal, y: Signal)
    requires f.Owns(z) && m.Owns(y)
  {
    && (v.mem == z <==> w.mem == y)
    && (w.mem == y ==>
          && Eval(f, flat, v.enable) == Eval(m, local, w.enable)
          && Eval(f, flat, v.addr) == Eval(m, local, w.addr)
          && Masked(Eval(f, flat, v.data), f.WidthOf(z)) == Masked(Eval(m, local, w.data), m.WidthOf(y)))
  }

  /** From place `base` on, the writes of `f` do to z what those of `m` do to y. */
  predicate WritesAlike(f: Module, m: Module, flat: Store, local: Store, base: nat, z: Signal, y: Signal)
    requires f.Owns(z) && m.Owns(y)
  {
    && base + |m.memoryWrites| <= |f.memoryWrites|
    && forall j | 0 <= j < |m.memoryWrites| ::
         WriteAlike(f, m, flat, local, f.memoryWrites[base + j], m.memoryWrites[j], z, y)
  }

  /** The writes of a level, seen by one of its own memories. */
  /** One write, seen by the two memories. */
  lemma OwnWrite(f: Module, m: Module, k: nat, i: nat, z: Signal, y: Signal, flat: Store, local: Store)
    requires f.Owns(z) && m.Owns(y) && k < |f.memoryWrites| && i < |m.memoryWrites|
    requires WriteAlike(f, m, flat, local, f.memoryWrites[k], m.memoryWrites[i], z, y)
    requires WordsIn(WritesApplied(f, flat, AllClocks, k), z) == WordsIn(WritesApplied(m, local, AllClocks, i), y)
    ensures WordsIn(WritesApplied(f, flat, AllClocks, k + 1), z)
         == WordsIn(WritesApplied(m, local, AllClocks, i + 1), y)
  {
    WritesStep(f, flat, k, z);
    WritesStep(m, local, i, y);
  }

  /** After j writes of both modules the two memories hold the same words. */
  predicate WordsAlike(f: Module, m: Module, base: nat, j: nat, z: Signal, y: Signal, flat: Store, local: Store)
    requires base + j <= |f.memoryWrites| && j <= |m.memoryWrites|
  {
    WordsIn(WritesApplied(f, flat, AllClocks, base + j), z) == WordsIn(WritesApplied(m, local, AllClocks, j), y)
  }

  lemma {:induction false} OwnWrites(f: Module, m: Module, base: nat, j: nat, z: Signal, y: Signal,
                                     flat: Store, local: Store)
    requires f.Owns(z) && m.Owns(y) && WritesAlike(f, m, flat, local, base, z, y)
    requires j <= |m.memoryWrites| && WordsAlike(f, m, base, 0, z, y, flat, local)
    ensures WordsAlike(f, m, base, j, z, y, flat, local)
    decreases j
  {
    if j > 0 {
      var i := j - 1;
      OwnWrites(f, m, base, i, z, y, flat, local);
      NextAlike(f, m, base, i, z, y, flat, local);
    }
  }

  lemma NextAlike(f: Module, m: Module, base: nat, i: nat, z: Signal, y: Signal, flat: Store, local: Store)
    requires f.Owns(z) && m.Owns(y) && WritesAlike(f, m, flat, local, base, z, y)
    requires i < |m.memoryWrites| && WordsAlike(f, m, base, i, z, y, flat, local)
    ensures WordsAlike(f, m, base, i + 1, z, y, flat, local)
  {
    assert WriteAlike(f, m, flat, local, f.memoryWrites[base + i], m.memoryWrites[i], z, y);
    OwnWrite(f, m, base + i, i, z, y, flat, local);
  }

  /** Writes elsewhere do not touch a memory. */
  lemma {:induction false} OtherWrites(f: Module, base: nat, top: nat, z: Signal, flat: Store)
    requires base <= top <= |f.memoryWrites|
    requires forall i | base <= i < top :: f.memoryWrites[i].mem != z
    ensures WordsIn(WritesApplied(f, flat, AllClocks, top), z)
         == WordsIn(WritesApplied(f, flat, AllClocks, base), z)
    decreases top
  {
    if base < top {
      OtherWrites(f, base, top - 1, z, flat);
      WriteOneSeen(f, flat, f.memoryWrites[top - 1], WritesApplied(f, flat, AllClocks, top - 1), z);
    }
  }

  lemma PrefixHolds(t: Tree, p: Path, before: seq<MemoryWrite>, all: seq<MemoryWrite>)
    requires before + LevelWrites(t, p, |ModuleAt(t, p).memoryWrites|) <= all
    ensures forall j | 0 <= j < |ModuleAt(t, p).memoryWrites| ::
              all[|before| + j] == MovedWrite(t, p, ModuleAt(t, p).memoryWrites[j])
  {
    var level := LevelWrites(t, p, |ModuleAt(t, p).memoryWrites|);
    forall j | 0 <= j < |level|
      ensures all[|before| + j] == level[j]
    {
      assert (before + level)[|before| + j] == level[j];
    }
  }

  /** Module `f` has the renamed writes of the module at p from `base` to `top`. */
  ghost predicate Placed(t: Tree, f: Module, p: Path, m: Module, base: nat, top: nat) {
    && top == base + |m.memoryWrites| <= |f.memoryWrites|
    && forall j | 0 <= j < |m.memoryWrites| ::
         f.memoryWrites[base + j] == MovedWrite(t, p, m.memoryWrites[j])
  }

  predicate AllWritesClosed(m: Module) {
    forall w | w in m.memoryWrites :: WriteClosed(m, w)
  }

  /** What a level needs to be renamed into `f`. */
  ghost predicate Level(t: Tree, f: Module, p: Path, flat: Store, local: Store) {
    && ValidPath(t, p) && Declares(t, p, f, At(t, p).m) && AllWritesClosed(At(t, p).m)
    && Mirrors(t, p, At(t, p).m, flat, local)
  }

  lemma WriteMoved(t: Tree, f: Module, p: Path, w: MemoryWrite, flat: Store, local: Store, y: Signal)
    requires Level(t, f, p, flat, local) && WriteClosed(At(t, p).m, w) && At(t, p).m.Owns(y)
    ensures f.Owns(Moved(t, p, y))
    ensures WriteAlike(f, At(t, p).m, flat, local, MovedWrite(t, p, w), w, Moved(t, p, y), y)
  {
    var m := At(t, p).m;
    MovedOwned(t, f, p, m, y);
    EvalMoved(t, p, f, m, flat, local, w.enable);
    EvalMoved(t, p, f, m, flat, local, w.addr);
    EvalMoved(t, p, f, m, flat, local, w.data);
    if Moved(t, p, w.mem) == Moved(t, p, y) {
      MovedInjective(t, Node(p, w.mem), Node(p, y));
    }
  }

  lemma LevelAlike(t: Tree, f: Module, p: Path, base: nat, top: nat, y: Signal, flat: Store, local: Store)
    requires Level(t, f, p, flat, local) && Placed(t, f, p, At(t, p).m, base, top) && At(t, p).m.Owns(y)
    ensures f.Owns(Moved(t, p, y))
    ensures WritesAlike(f, At(t, p).m, flat, local, base, Moved(t, p, y), y)
  {
    var m := At(t, p).m;
    MovedOwned(t, f, p, m, y);
    forall j | 0 <= j < |m.memoryWrites|
      ensures WriteAlike(f, m, flat, local, f.memoryWrites[base + j], m.memoryWrites[j], Moved(t, p, y), y)
    {
      assert m.memoryWrites[j] in m.memoryWrites;
      WriteMoved(t, f, p, m.memoryWrites[j], flat, local, y);
    }
  }

  lemma MovedOwned(t: Tree, f: Module, p: Path, m: Module, y: Signal)
    requires Declares(t, p, f, m) && m.Owns(y)
    ensures f.Owns(Moved(t, p, y)) && f.WidthOf(Moved(t, p, y)) == m.WidthOf(y)
  {
    assert SignalType(f, Moved(t, p, y)) == SignalType(m, y);
  }

  lemma MovedElsewhere(t: Tree, p: Path, x: Signal, k: Node)
    requires ValidPath(t, p) && At(t, p).m.Owns(x) && IsNode(t, k) && k.path != p
    ensures Moved(t, p, x) != Moved(t, k.path, k.signal)
  {
    if Moved(t, p, x) == Moved(t, k.path, k.signal) {
      MovedInjective(t, Node(p, x), k);
    }
  }

  lemma LevelElsewhere(t: Tree, f: Module, p: Path, base: nat, top: nat, k: Node, i: nat)
    requires ValidPath(t, p) && Placed(t, f, p, At(t, p).m, base, top) && AllWritesClosed(At(t, p).m)
    requires IsNode(t, k) && k.path != p && base <= i < top
    ensures f.memoryWrites[i].mem != Moved(t, k.path, k.signal)
  {
    var m, j := At(t, p).m, i - base;
    assert f.memoryWrites[base + j] == MovedWrite(t, p, m.memoryWrites[j]);
    assert m.memoryWrites[j] in m.memoryWrites && WriteClosed(m, m.memoryWrites[j]);
    MovedElsewhere(t, p, m.memoryWrites[j].mem, k);
  }

  /** The levels follow one another in the flat list, each once. */
  ghost predicate Listed(t: Tree, f: Module, ps: seq<Path>, bases: seq<nat>) {
    && |bases| == |ps| + 1 && bases[0] == 0 && bases[|ps|] == |f.memoryWrites|
    && (forall i, j | 0 <= i < j < |ps| :: ps[i] != ps[j])
    && (forall i | 0 <= i < |ps| :: ListedAt(t, f, ps, bases, i))
  }

  ghost predicate ListedAt(t: Tree, f: Module, ps: seq<Path>, bases: seq<nat>, i: nat)
    requires i < |ps| && i + 1 < |bases|
  {
    && ValidPath(t, ps[i]) && AllWritesClosed(At(t, ps[i]).m)
    && Placed(t, f, ps[i], At(t, ps[i]).m, bases[i], bases[i + 1])
  }

  /** The writes of the other levels leave memory y of level p alone; its own level
      does to it what it did before. */
  ghost predicate Done(t: Tree, f: Module, p: Path, top: nat, own: bool, y: Signal, flat: Store, local: Store)
    requires ValidPath(t, p) && top <= |f.memoryWrites|
  {
    WordsIn(WritesApplied(f, flat, AllClocks, top), Moved(t, p, y))
    == if own then WordsIn(WritesApplied(At(t, p).m, local, AllClocks, |At(t, p).m.memoryWrites|), y)
       else WordsIn(local.mems, y)
  }

  lemma OwnLevel(t: Tree, f: Module, p: Path, base: nat, top: nat, y: Signal, flat: Store, local: Store)
    requires Level(t, f, p, flat, local) && Placed(t, f, p, At(t, p).m, base, top) && At(t, p).m.Owns(y)
    requires Done(t, f, p, base, false, y, flat, local)
    ensures Done(t, f, p, top, true, y, flat, local)
  {
    LevelAlike(t, f, p, base, top, y, flat, local);
    OwnDone(f, At(t, p).m, base, top, Moved(t, p, y), y, flat, local);
  }

  lemma OwnDone(f: Module, m: Module, base: nat, top: nat, z: Signal, y: Signal, flat: Store, local: Store)
    requires f.Owns(z) && m.Owns(y) && WritesAlike(f, m, flat, local, base, z, y)
    requires top == base + |m.memoryWrites|
    requires WordsIn(WritesApplied(f, flat, AllClocks, base), z) == WordsIn(local.mems, y)
    ensures WordsIn(WritesApplied(f, flat, AllClocks, top), z)
         == WordsIn(WritesApplied(m, local, AllClocks, |m.memoryWrites|), y)
  {
    OwnWrites(f, m, base, |m.memoryWrites|, z, y, flat, local);
  }

  lemma OtherLevel(t: Tree, f: Module, p: Path, q: Path, base: nat, top: nat, own: bool, y: Signal,
                   flat: Store, local: Store)
    requires ValidPath(t, p) && ValidPath(t, q) && p != q && At(t, q).m.Owns(y)
    requires Placed(t, f, p, At(t, p).m, base, top) && AllWritesClosed(At(t, p).m)
    requires Done(t, f, q, base, own, y, flat, local)
    ensures Done(t, f, q, top, own, y, flat, local)
  {
    var z := Moved(t, q, y);
    forall i | base <= i < top
      ensures f.memoryWrites[i].mem != z
    {
      LevelElsewhere(t, f, p, base, top, Node(q, y), i);
    }
    OtherWrites(f, base, top, z, flat);
  }

  lemma NoLevels(t: Tree, f: Module, p: Path, y: Signal, flat: Store, local: Store)
    requires Level(t, f, p, flat, local) && At(t, p).m.Owns(y)
    ensures Done(t, f, p, 0, false, y, flat, local)
  {
  }

  lemma {:induction false} LevelsApplied(t: Tree, f: Module, ps: seq<Path>, bases: seq<nat>, n: nat, k: nat,
                                         y: Signal, flat: Store, local: Store)
    requires Listed(t, f, ps, bases) && n <= |ps| && k < |ps|
    requires Level(t, f, ps[k], flat, local) && At(t, ps[k]).m.Owns(y)
    ensures bases[n] <= |f.memoryWrites| && Done(t, f, ps[k], bases[n], k < n, y, flat, local)
    decreases n
  {
    if n == 0 {
      NoLevels(t, f, ps[k], y, flat, local);
    } else {
      var i := n - 1;
      assert ListedAt(t, f, ps, bases, i);
      LevelsApplied(t, f, ps, bases, i, k, y, flat, local);
      if k == i {
        OwnLevel(t, f, ps[k], bases[i], bases[i + 1], y, flat, local);
      } else {
        assert ps[i] != ps[k];
        OtherLevel(t, f, ps[i], ps[k], bases[i], bases[i + 1], k < i, y, flat, local);
      }
    }
  }

  ghost function Bases(t: Tree, ps: seq<Path>): (bases: seq<nat>)
    ensures |bases| == |ps| + 1
    ensures forall i | 0 <= i <= |ps| :: bases[i] == |WritesOf(t, ps, i)|
  {
    seq(|ps| + 1, i requires 0 <= i <= |ps| => |WritesOf(t, ps, i)|)
  }

  lemma PlacedIn(t: Tree, f: Module, ps: seq<Path>, n: nat)
    requires n < |ps| && ValidPath(t, ps[n]) && f.memoryWrites == WritesOf(t, ps, |ps|)
    ensures Placed(t, f, ps[n], At(t, ps[n]).m, |WritesOf(t, ps, n)|, |WritesOf(t, ps, n + 1)|)
  {
    WritesOfPrefix(t, ps, n + 1, |ps|);
    PrefixHolds(t, ps[n], WritesOf(t, ps, n), WritesOf(t, ps, |ps|));
  }

  lemma FlatListedAt(t: Tree, i: nat)
    requires Sane(t) && Pure(t) && AllClosed(t) && i < |Levels(t)|
    ensures ListedAt(t, FlatModule(t), Levels(t), Bases(t, Levels(t)), i)
  {
    PathsAreValid(t, Levels(t)[i]);
    LevelAt(t, Levels(t)[i]);
    PlacedIn(t, FlatModule(t), Levels(t), i);
  }

  lemma FlatListed(t: Tree)
    requires Sane(t) && Pure(t) && AllClosed(t)
    ensures Listed(t, FlatModule(t), Levels(t), Bases(t, Levels(t)))
  {
    forall i | 0 <= i < |Levels(t)|
      ensures ListedAt(t, FlatModule(t), Levels(t), Bases(t, Levels(t)), i)
    {
      FlatListedAt(t, i);
    }
  }

  lemma FlatLevel(t: Tree, p: Path, flat: Store, local: Store)
    requires Sane(t) && Pure(t) && AllClosed(t) && ValidPath(t, p)
    requires Mirrors(t, p, At(t, p).m, flat, local)
    ensures Level(t, FlatModule(t), p, flat, local)
  {
    FlatDeclares(t, p);
    LevelAt(t, p);
  }

  lemma AllLevels(t: Tree, f: Module, ps: seq<Path>, bases: seq<nat>, k: nat, y: Signal,
                  flat: Store, local: Store)
    requires Listed(t, f, ps, bases) && k < |ps|
    requires Level(t, f, ps[k], flat, local) && At(t, ps[k]).m.Owns(y)
    ensures WordsIn(LatchStore(f, flat, AllClocks).mems, Moved(t, ps[k], y))
         == WordsIn(LatchStore(At(t, ps[k]).m, local, AllClocks).mems, y)
  {
    LevelsApplied(t, f, ps, bases, |ps|, k, y, flat, local);
  }

  /** A clock edge does to a memory of the flattened design what it does to the
      original. */
  lemma MemoryMoved(t: Tree, n: Node, flat: Store, local: Store)
    requires Sane(t) && Pure(t) && AllClosed(t) && IsNode(t, n)
    requires Mirrors(t, n.path, At(t, n.path).m, flat, local)
    ensures WordsIn(LatchStore(FlatModule(t), flat, AllClocks).mems, Moved(t, n.path, n.signal))
         == WordsIn(LatchStore(At(t, n.path).m, local, AllClocks).mems, n.signal)
  {
    PathsAreValid(t, n.path);
    var k :| 0 <= k < |Levels(t)| && Levels(t)[k] == n.path;
    FlatListed(t);
    FlatLevel(t, n.path, flat, local);
    AllLevels(t, FlatModule(t), Levels(t), Bases(t, Levels(t)), k, n.signal, flat, local);
  }
}
