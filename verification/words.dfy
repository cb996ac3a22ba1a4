/** Arithmetic on the simulator's 128-bit machine words.

    A word is a natural number below 2^128.  Masking with `mask(w)` is
    reduction modulo 2^w (`MaskIsLow` ties the two together), so every law
    about truncation below is a law about remainders. */
module Words {

  function Pow2(n: nat): (p: nat)
    ensures p > 0
  {
    if n == 0 then 1 else 2 * Pow2(n - 1)
  }

  const BITS: nat := 128

  type Word = x: nat | x < Pow2(BITS)

  // ---------------------------------------------------------------- powers

  lemma {:induction false} Pow2Add(a: nat, b: nat)
    ensures Pow2(a + b) == Pow2(a) * Pow2(b)
  {
    if a == 0 {
    } else {
      Pow2Add(a - 1, b);
      assert Pow2(a + b) == 2 * Pow2(a - 1 + b);
    }
  }

  lemma {:induction false} Pow2Mono(a: nat, b: nat)
    requires a <= b
    ensures Pow2(a) <= Pow2(b)
  {
    if a < b {
      Pow2Mono(a, b - 1);
    }
  }

  lemma Pow2StrictMono(a: nat, b: nat)
    requires a < b
    ensures Pow2(a) < Pow2(b)
  {
    Pow2Mono(a + 1, b);
  }

  // ------------------------------------------------------------ remainders

  /** The unique-quotient form of division, from which the other laws follow. */
  lemma DivModUnique(x: int, m: int, q: int, r: int)
    requires m > 0 && 0 <= r < m && x == q * m + r
    ensures x / m == q && x % m == r
  {
    var d := q - x / m;
    assert d * m == x % m - r by {
      assert x == (x / m) * m + x % m;
    }
    assert d > 0 ==> d * m >= m;
    assert d < 0 ==> d * m <= -m;
  }

  lemma ModShift(x: int, m: int, k: int)
    requires m > 0
    ensures (x + k * m) % m == x % m
  {
    DivModUnique(x + k * m, m, x / m + k, x % m);
  }

  lemma ModAdd(x: int, y: int, m: int)
    requires m > 0
    ensures (x + y) % m == (x % m + y % m) % m
  {
    ModShift(x % m + y % m, m, x / m + y / m);
    assert x + y == x % m + y % m + (x / m + y / m) * m;
  }

  lemma ModSub(x: int, y: int, m: int)
    requires m > 0
    ensures (x - y) % m == (x % m - y % m) % m
  {
    ModShift(x % m - y % m, m, x / m - y / m);
    assert x - y == x % m - y % m + (x / m - y / m) * m;
  }

  lemma Distribute(x: int, a: int, m: int, b: int, y: int)
    requires x == a * m + b
    ensures x * y == b * y + (a * y) * m
  {
    calc {
      x * y;
      (a * m + b) * y;
      (a * m) * y + b * y;
      b * y + (a * y) * m;
    }
  }

  lemma ModLeft(x: int, y: int, m: int)
    requires m > 0
    ensures (x * y) % m == ((x % m) * y) % m
  {
    var a, b := x / m, x % m;
    Distribute(x, a, m, b, y);
    ModShift(b * y, m, a * y);
  }

  lemma ModMul(x: int, y: int, m: int)
    requires m > 0
    ensures (x * y) % m == ((x % m) * (y % m)) % m
  {
    ModLeft(x, y, m);
    ModLeft(y, x % m, m);
  }

  lemma ModMod(x: int, m: int, k: int)
    requires m > 0 && k > 0
    ensures m * k > 0
    ensures (x % (m * k)) % m == x % m
  {
    var q, r := x / (m * k), x % (m * k);
    assert x == r + (q * k) * m;
    ModShift(r, m, q * k);
  }

  // -------------------------------------------------------------- low bits

  /** `x & mask(w)`: the low w bits. */
  function Low(x: int, w: nat): (r: nat)
    ensures r < Pow2(w)
  {
    x % Pow2(w)
  }

  lemma LowSmall(x: nat, w: nat)
    requires x < Pow2(w)
    ensures Low(x, w) == x
  {
    DivModUnique(x, Pow2(w), 0, x);
  }

  /** Truncating twice is truncating once, to the narrower width. */
  lemma LowLow(x: int, w: nat, v: nat)
    requires w <= v
    ensures Low(Low(x, v), w) == Low(x, w)
  {
    Pow2Add(w, v - w);
    ModMod(x, Pow2(w), Pow2(v - w));
  }

  lemma LowLeq(x: nat, w: nat)
    ensures Low(x, w) <= x
  {
    DivLeq(x, Pow2(w));
  }

  lemma MulLeq(a: int, b: int, c: int)
    requires a <= b && 0 <= c
    ensures a * c <= b * c
  {
  }

  lemma DivMod(x: int, p: int)
    requires p > 0
    ensures x == (x / p) * p + x % p
  {
  }

  lemma Regroup(a: int, b: int, q: int, p: int)
    ensures (a * q + b) * p == a * (p * q) + b * p
  {
    calc {
      (a * q + b) * p;
      (a * q) * p + b * p;
      { MulAssoc(a, q, p); }
      a * (p * q) + b * p;
    }
  }

  lemma MulAssoc(a: int, q: int, p: int)
    ensures (a * q) * p == a * (p * q)
  {
  }

  lemma DivLeq(x: int, p: int)
    requires p > 0 && x >= 0
    ensures 0 <= x / p <= x && x % p <= x
  {
    DivMod(x, p);
    if x / p < 0 {
      MulLeq(x / p, -1, p);
      assert false;
    }
    MulLeq(1, p, x / p);
    MulLeq(0, x / p, p);
  }

  lemma LowWord(x: int, w: nat)
    requires w <= BITS
    ensures Low(x, w) < Pow2(BITS)
  {
    Pow2Mono(w, BITS);
  }

  // ----------------------------------------------------------- bit by bit

  datatype BitOp = AndOp | OrOp | XorOp

  function Bit(op: BitOp, p: nat, q: nat): (r: nat)
    requires p < 2 && q < 2
    ensures r < 2
  {
    match op
    case AndOp => if p == 1 && q == 1 then 1 else 0
    case OrOp => if p == 1 || q == 1 then 1 else 0
    case XorOp => if p != q then 1 else 0
  }

  function Bitwise(op: BitOp, a: nat, b: nat): nat
    decreases a + b
  {
    if a == 0 && b == 0 then 0
    else Bit(op, a % 2, b % 2) + 2 * Bitwise(op, a / 2, b / 2)
  }

  lemma HalfLow(x: nat, k: nat)
    requires k > 0
    ensures Low(x, k) % 2 == x % 2
    ensures Low(x, k) / 2 == Low(x / 2, k - 1)
  {
    var p := Pow2(k - 1);
    assert Pow2(k) == 2 * p;
    var q, r := (x / 2) / p, (x / 2) % p;
    assert x == 2 * (x / 2) + x % 2;
    assert x / 2 == q * p + r;
    assert x == q * (2 * p) + (2 * r + x % 2) by {
      assert 2 * (q * p) == q * (2 * p);
    }
    DivModUnique(x, Pow2(k), q, 2 * r + x % 2);
  }

  /** Low bits of a bitwise result depend only on low bits of the operands. */
  lemma {:induction false} BitwiseLow(op: BitOp, a: nat, b: nat, k: nat)
    ensures Low(Bitwise(op, a, b), k) == Bitwise(op, Low(a, k), Low(b, k))
    decreases k
  {
    var r := Bitwise(op, a, b);
    if k == 0 {
    } else {
      HalfLow(a, k);
      HalfLow(b, k);
      HalfLow(r, k);
      BitwiseLow(op, a / 2, b / 2, k - 1);
      BitwiseUnfold(op, a, b);
      BitwiseUnfold(op, Low(a, k), Low(b, k));
    }
  }

  lemma BitwiseUnfold(op: BitOp, a: nat, b: nat)
    ensures Bitwise(op, a, b) == Bit(op, a % 2, b % 2) + 2 * Bitwise(op, a / 2, b / 2)
    ensures Bitwise(op, a, b) % 2 == Bit(op, a % 2, b % 2)
    ensures Bitwise(op, a, b) / 2 == Bitwise(op, a / 2, b / 2)
  {
    var low, high := Bit(op, a % 2, b % 2), Bitwise(op, a / 2, b / 2);
    if a == 0 && b == 0 {
      assert high == 0;
    }
    DivModUnique(Bitwise(op, a, b), 2, high, low);
  }

  lemma BitwiseBound(op: BitOp, a: nat, b: nat, k: nat)
    requires a < Pow2(k) && b < Pow2(k)
    ensures Bitwise(op, a, b) < Pow2(k)
  {
    LowSmall(a, k);
    LowSmall(b, k);
    BitwiseLow(op, a, b, k);
  }

  lemma {:induction false} AndBound(a: nat, b: nat)
    ensures Bitwise(AndOp, a, b) <= a && Bitwise(AndOp, a, b) <= b
    decreases a + b
  {
    if a == 0 && b == 0 {
    } else {
      AndBound(a / 2, b / 2);
    }
  }

  lemma {:induction false} AndOnes(x: nat, k: nat)
    ensures Bitwise(AndOp, x, Ones(k)) == Low(x, k)
    decreases k
  {
    if k == 0 {
      AndNone(x);
    } else {
      AndOnes(x / 2, k - 1);
      AndStep(x, x / 2, Ones(k - 1), Low(x / 2, k - 1));
      Halves(x, k);
    }
  }

  lemma AndStep(x: nat, half: nat, ones: nat, low: nat)
    requires half == x / 2 && Bitwise(AndOp, half, ones) == low
    ensures Bitwise(AndOp, x, 2 * ones + 1) == x % 2 + 2 * low
  {
    AndOdd(x, ones);
  }

  /** k ones. */
  function Ones(k: nat): (n: nat)
    ensures n == Pow2(k) - 1
    ensures k > 0 ==> n == 2 * Ones(k - 1) + 1
  {
    Pow2(k) - 1
  }

  lemma AndNone(x: nat)
    ensures Bitwise(AndOp, x, 0) == Low(x, 0) == 0
  {
    AndBound(x, 0);
    DivModUnique(x, Pow2(0), x, 0);
  }

  lemma AndOdd(x: nat, half: nat)
    ensures Bitwise(AndOp, x, 2 * half + 1) == x % 2 + 2 * Bitwise(AndOp, x / 2, half)
  {
    var ones := 2 * half + 1;
    BitwiseUnfold(AndOp, x, ones);
    assert ones / 2 == half && ones % 2 == 1;
    assert Bit(AndOp, x % 2, 1) == x % 2;
  }

  lemma Halves(x: nat, k: nat)
    requires k > 0
    ensures Low(x, k) == x % 2 + 2 * Low(x / 2, k - 1)
  {
    HalfLow(x, k);
    DivMod(Low(x, k), 2);
  }

  /** The `mask` of the simulator, as a word. */
  function Mask(w: nat): (m: nat)
    ensures m < Pow2(BITS)
  {
    if w >= BITS then Pow2(BITS) - 1
    else
      (Pow2Mono(w, BITS); Pow2(w) - 1)
  }

  /** `x & mask(w)` keeps exactly the low w bits, for every width. */
  lemma MaskIsLow(x: Word, w: nat)
    ensures Bitwise(AndOp, x, Mask(w)) == Low(x, w)
  {
    if w >= BITS {
      WholeWord(x, w);
      MaskOnes(BITS);
      AndOnes(x, BITS);
    } else {
      MaskOnes(w);
      AndOnes(x, w);
    }
  }

  lemma MaskOnes(w: nat)
    requires w <= BITS
    ensures Mask(w) == Ones(w)
  {
  }

  lemma WholeWord(x: Word, w: nat)
    requires w >= BITS
    ensures Mask(w) == Mask(BITS) && Low(x, w) == Low(x, BITS)
  {
    LowSmall(x, BITS);
    Pow2Mono(BITS, w);
    LowSmall(x, w);
  }

  lemma BesideLess(high: int, low: int, q: int, p: int)
    requires 0 <= high < q && 0 <= low < p
    ensures high * p + low < q * p
    ensures 0 <= high * p
  {
    MulLeq(high + 1, q, p);
    MulLeq(0, high, p);
    assert (high + 1) * p == high * p + p;
  }

  /** Two numbers side by side fit in the sum of their widths. */
  lemma BesideBound(high: nat, low: nat, v: nat, w: nat)
    requires high < Pow2(v) && low < Pow2(w)
    ensures 0 <= high * Pow2(w) + low < Pow2(v + w)
  {
    Pow2Add(v, w);
    BesideLess(high, low, Pow2(v), Pow2(w));
  }

  /** OR of a value shifted past another one is their sum: the step of `concat`. */
  lemma {:induction false} OrShifted(lo: nat, hi: nat, s: nat)
    requires lo < Pow2(s)
    ensures Bitwise(OrOp, lo, hi * Pow2(s)) == lo + hi * Pow2(s)
    decreases s
  {
    if s == 0 {
      OrZero(hi);
    } else {
      var p := Pow2(s - 1);
      assert hi * Pow2(s) == 2 * (hi * p) by {
        assert hi * (2 * p) == 2 * (hi * p);
      }
      OrShifted(lo / 2, hi, s - 1);
      BitwiseUnfold(OrOp, lo, hi * Pow2(s));
    }
  }

  lemma {:induction false} OrZero(b: nat)
    ensures Bitwise(OrOp, 0, b) == b && Bitwise(OrOp, b, 0) == b
  {
    if b > 0 {
      OrZero(b / 2);
    }
  }

  // ------------------------------------------------- two's complement

  /** `!x` on a 128-bit word. */
  function NotWord(x: Word): Word
  {
    Pow2(BITS) - 1 - x
  }

  lemma NotMod(x: int, p: int, k: int)
    requires p > 0
    ensures (k * p - 1 - x) % p == p - 1 - x % p
  {
    var q := x / p;
    DivMod(x, p);
    assert (k - 1 - q) * p == k * p - p - q * p;
    DivModUnique(k * p - 1 - x, p, k - 1 - q, p - 1 - x % p);
  }

  lemma NotLow(x: Word, w: nat)
    requires w <= BITS
    ensures Low(NotWord(x), w) == Pow2(w) - 1 - Low(x, w)
  {
    Pow2Add(BITS - w, w);
    assert BITS - w + w == BITS;
    NotMod(x, Pow2(w), Pow2(BITS - w));
  }

  /** `signed_value`: the low w bits read as a two's complement number.

      At width 127 the source's `value - (1i128 << 127)` leaves the range of
      i128 before it comes back: a build with overflow checks stops there, and
      this is what a build that wraps computes. */
  function SignedValue(x: Word, w: nat): int
  {
    if w == 0 then 0
    else
      var v := Low(x, w);
      if v < Pow2(w - 1) then v else v - Pow2(w)
  }

  predicate FitsSigned(v: int, w: nat)
    requires w > 0
  {
    -(Pow2(w - 1) as int) <= v < Pow2(w - 1)
  }

  /** Encoding an in-range signed number and reading it back is the identity. */
  lemma SignedRoundTrip(v: int, w: nat)
    requires 0 < w <= BITS && FitsSigned(v, w)
    ensures Low(v, w) < Pow2(BITS)
    ensures SignedValue(Low(v, w), w) == v
  {
    LowWord(v, w);
    LowLow(v, w, w);
    var p := Pow2(w);
    if v >= 0 {
      DivModUnique(v, p, 0, v);
    } else {
      DivModUnique(v, p, -1, v + p);
    }
  }

  /** Reading back is always in range and re-encodes to the same bits. */
  lemma SignedInRange(x: Word, w: nat)
    requires 0 < w <= BITS
    ensures FitsSigned(SignedValue(x, w), w)
    ensures Low(SignedValue(x, w), w) == Low(x, w)
  {
    var v := Low(x, w);
    if v >= Pow2(w - 1) {
      DivModUnique(v - Pow2(w), Pow2(w), -1, v);
    } else {
      LowSmall(v, w);
    }
  }

  /** Sign extension keeps the signed value. */
  lemma SextPreserves(x: Word, w: nat, v: nat)
    requires 0 < w <= v <= BITS
    ensures Low(SignedValue(x, w), v) < Pow2(BITS)
    ensures SignedValue(Low(SignedValue(x, w), v), v) == SignedValue(x, w)
  {
    SignedInRange(x, w);
    Pow2Mono(w - 1, v - 1);
    SignedRoundTrip(SignedValue(x, w), v);
  }

  // ----------------------------------------------------------- ceil log 2

  /** `ceil_log2_usize`: the bit length of value - 1. */
  function BitLength(x: nat): nat
  {
    if x == 0 then 0 else 1 + BitLength(x / 2)
  }

  function CeilLog2(value: nat): nat
    requires value > 0
  {
    BitLength(value - 1)
  }

  lemma {:induction false} BitLengthBounds(x: nat)
    ensures x < Pow2(BitLength(x))
    ensures x > 0 ==> BitLength(x) > 0 && Pow2(BitLength(x) - 1) <= x
  {
    if x > 0 {
      BitLengthBounds(x / 2);
    }
  }

  /** A register of CeilLog2(n) bits holds every number below n, and no
      narrower register does. */
  lemma CeilLog2Tight(n: nat)
    requires n > 0
    ensures n <= Pow2(CeilLog2(n))
    ensures n > 1 ==> CeilLog2(n) > 0 && Pow2(CeilLog2(n) - 1) < n
  {
    BitLengthBounds(n - 1);
  }
}
