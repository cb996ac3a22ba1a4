/** How the simulator evaluates the one-bit logic and the small counters of the
    generated stages. */
module Gates {
  import opened Words
  import opened Rtl
  import opened Semantics

  lemma FlagBit(x: Word)
    requires x < 2
    ensures x == Flag(x == 1)
  {
  }

  lemma OneBit(x: nat)
    ensures Low(x, 1) == x % 2
  {
    assert Pow2(1) == 2;
  }

  /** A literal that fits its width evaluates to itself. */
  lemma LitValue(m: Module, st: Store, v: nat, w: nat)
    requires v < Pow2(w) && w <= BITS
    ensures v < Pow2(BITS)
    ensures Eval(m, st, LitU(v, w)) == v
  {
    Pow2Mono(w, BITS);
    LowSmall(v, BITS);
    LowSmall(v, w);
  }

  lemma EncodeZero(w: nat)
    ensures Encode(0, w) == 0
  {
    LowSmall(0, BITS);
    LowSmall(0, w);
  }

  lemma Parity(op: BitOp, a: Word, b: Word)
    ensures BitsWord(op, a, b) % 2 == Bit(op, a % 2, b % 2)
  {
    BitwiseUnfold(op, a, b);
  }

  lemma NotParity(x: Word)
    ensures NotWord(x) % 2 == 1 - x % 2
  {
    assert Pow2(BITS) == 2 * Pow2(BITS - 1);
  }

  /** AND with a one-bit word is a one-bit word. */
  lemma AndBit(a: Word, b: Word)
    requires a < 2
    ensures BitsWord(AndOp, a, b) == Flag(a == 1 && b % 2 == 1)
  {
    Parity(AndOp, a, b);
    AndBound(a, b);
  }

  lemma OrBit(a: Word, b: Word)
    requires a < 2 && b < 2
    ensures BitsWord(OrOp, a, b) == Flag(a == 1 || b == 1)
  {
    Parity(OrOp, a, b);
    assert Pow2(1) == 2;
    BitwiseBound(OrOp, a, b, 1);
  }

  /** `x & !y` on one-bit words is canonical although `!y` is not. */
  lemma AndNotBit(a: Word, b: Word)
    requires a < 2 && b < 2
    ensures BitsWord(AndOp, a, NotWord(b)) == Flag(a == 1 && b == 0)
  {
    NotParity(b);
    AndBit(a, NotWord(b));
  }

  /** `!x | y` cut to one bit. */
  lemma NotOrBit(a: Word, b: Word)
    requires a < 2 && b < 2
    ensures Masked(BitsWord(OrOp, NotWord(a), b), 1) == Flag(a == 0 || b == 1)
  {
    NotParity(a);
    Parity(OrOp, NotWord(a), b);
    OneBit(BitsWord(OrOp, NotWord(a), b));
  }

  /** `v & ((!f & !r) | (f & r))`: load the held item. */
  lemma LoadBit(v: Word, f: Word, r: Word)
    requires v < 2 && f < 2 && r < 2
    ensures BitsWord(AndOp, v, BitsWord(OrOp, BitsWord(AndOp, NotWord(f), NotWord(r)), BitsWord(AndOp, f, r)))
         == Flag(v == 1 && f == r)
  {
    NotParity(f);
    NotParity(r);
    Parity(AndOp, NotWord(f), NotWord(r));
    Parity(AndOp, f, r);
    var x := BitsWord(OrOp, BitsWord(AndOp, NotWord(f), NotWord(r)), BitsWord(AndOp, f, r));
    Parity(OrOp, BitsWord(AndOp, NotWord(f), NotWord(r)), BitsWord(AndOp, f, r));
    AndBit(v, x);
  }

  /** Counting up and down inside the width does not wrap. */
  lemma CountUp(n: Word, w: nat)
    requires n + 1 < Pow2(w) && w <= BITS
    ensures Masked(Wrap(n + 1), w) == n + 1
  {
    LowLow(n + 1, w, BITS);
    LowSmall(n + 1, w);
  }

  lemma CountDown(n: Word, w: nat)
    requires 0 < n < Pow2(w) && w <= BITS
    ensures Masked(Wrap(n - 1), w) == n - 1
  {
    LowSmall(n - 1, BITS);
    LowSmall(n - 1, w);
  }

  lemma MaskedSmall(x: Word, w: nat)
    requires x < Pow2(w)
    ensures Masked(x, w) == x
  {
    LowSmall(x, w);
  }

  /** A usize-sized count needs at most 64 bits. */
  lemma CeilLog2Fits(n: nat)
    requires 0 < n < Pow2(64)
    ensures CeilLog2(n) <= 64
    ensures n <= Pow2(CeilLog2(n))
  {
    CeilLog2Tight(n);
    if CeilLog2(n) > 64 {
      Pow2Mono(64, CeilLog2(n) - 1);
      assert false;
    }
  }
}
