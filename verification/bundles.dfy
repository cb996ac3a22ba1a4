/** Packing a bundle into one word with `concat` and taking its fields out
    again with `unpack_bundle_field`. */
module Bundles {
  import opened Words
  import opened Rtl
  import opened Semantics
  import opened Agreement
  import opened ReadyValid

  /** The fields side by side, the first one on top. */
  function Pack(values: seq<nat>, fields: seq<BitType>): nat
    requires |values| == |fields|
  {
    if fields == [] then 0
    else values[0] * Pow2(PackedWidth(fields[1..])) + Pack(values[1..], fields[1..])
  }

  /** Field k of a packed number. */
  function Field(word: nat, fields: seq<BitType>, k: nat): nat
    requires k < |fields|
  {
    Low(word / Pow2(PackedWidth(fields[k + 1..])), fields[k].width)
  }

  predicate Fit(values: seq<nat>, fields: seq<BitType>) {
    |values| == |fields| && forall k | 0 <= k < |fields| :: values[k] < Pow2(fields[k].width)
  }

  lemma {:induction false} PackBound(values: seq<nat>, fields: seq<BitType>)
    requires Fit(values, fields)
    ensures Pack(values, fields) < Pow2(PackedWidth(fields))
  {
    if fields != [] {
      PackBound(values[1..], fields[1..]);
      BesideBound(values[0], Pack(values[1..], fields[1..]),
                  fields[0].width, PackedWidth(fields[1..]));
    }
  }

  /** Every field comes out as it went in. */
  lemma {:induction false} PackField(values: seq<nat>, fields: seq<BitType>, k: nat)
    requires Fit(values, fields) && k < |fields|
    ensures Field(Pack(values, fields), fields, k) == values[k]
  {
    var rest, low := fields[1..], Pack(values[1..], fields[1..]);
    var p := Pow2(PackedWidth(rest));
    PackBound(values[1..], rest);
    if k == 0 {
      assert fields[0 + 1..] == rest;
      DivModUnique(Pack(values, fields), p, values[0], low);
      LowSmall(values[0], fields[0].width);
    } else {
      PackField(values[1..], rest, k - 1);
      assert rest[k - 1 + 1..] == fields[k + 1..] && rest[k - 1] == fields[k];
      FieldBelow(values[0], low, rest, k - 1);
    }
  }

  lemma {:induction false} WidthSplit(fields: seq<BitType>, k: nat)
    requires k < |fields|
    ensures PackedWidth(fields[k + 1..]) + fields[k].width <= PackedWidth(fields)
    decreases k
  {
    if k > 0 {
      WidthSplit(fields[1..], k - 1);
      assert fields[1..][k - 1 + 1..] == fields[k + 1..];
    }
  }

  /** What lies above a packed number does not disturb its fields. */
  lemma FieldBelow(high: nat, low: nat, fields: seq<BitType>, k: nat)
    requires k < |fields| && low < Pow2(PackedWidth(fields))
    ensures Field(high * Pow2(PackedWidth(fields)) + low, fields, k) == Field(low, fields, k)
  {
    WidthSplit(fields, k);
    SliceBelow(high, low, PackedWidth(fields[k + 1..]), fields[k].width, PackedWidth(fields));
  }

  lemma SliceBelow(high: nat, low: nat, lsb: nat, w: nat, total: nat)
    requires lsb + w <= total
    ensures Low((high * Pow2(total) + low) / Pow2(lsb), w) == Low(low / Pow2(lsb), w)
  {
    var gap := total - lsb;
    var p, x := Pow2(lsb), Pow2(gap);
    assert Pow2(total) == p * x by {
      Pow2Add(lsb, gap);
      assert lsb + gap == total;
    }
    var above := high * (p * x) + low;
    DivBeside(high, low, p, x);
    DivLeq(low, p);
    var y: nat := low / p;
    assert above / p == high * x + y;
    LowBelow(high, y, w, gap);
  }

  lemma DivBeside(high: int, low: int, p: int, x: int)
    requires p > 0
    ensures (high * (p * x) + low) / p == high * x + low / p
  {
    DivMod(low, p);
    assert high * (p * x) == (high * x) * p by {
      MulAssoc(high, x, p);
    }
    assert (high * x + low / p) * p == (high * x) * p + (low / p) * p;
    DivModUnique(high * (p * x) + low, p, high * x + low / p, low % p);
  }

  lemma LowBelow(high: nat, y: nat, w: nat, gap: nat)
    requires w <= gap
    ensures Low(high * Pow2(gap) + y, w) == Low(y, w)
  {
    LowLow(high * Pow2(gap) + y, w, gap);
    LowLow(y, w, gap);
    ModShift(y, Pow2(gap), high);
  }

  // ------------------------------------------------------- as expressions

  predicate BitsTyped(m: Module, bits: seq<Signal>, fields: seq<BitType>) {
    && |bits| == |fields|
    && forall k | 0 <= k < |fields| :: SignalType(m, bits[k]) == Some(fields[k])
  }

  function BitValues(st: Store, bits: seq<Signal>): (vs: seq<nat>)
    ensures |vs| == |bits|
    ensures forall k | 0 <= k < |bits| :: vs[k] == Get(st.values, bits[k])
  {
    seq(|bits|, k requires 0 <= k < |bits| => Get(st.values, bits[k]))
  }

  lemma {:induction false} RefsWidth(m: Module, bits: seq<Signal>, fields: seq<BitType>)
    requires BitsTyped(m, bits, fields)
    ensures PartsWidth(m, Refs(bits)) == PackedWidth(fields)
    ensures forall k | 0 <= k < |fields| :: Width(m, Refs(bits)[k]) <= PackedWidth(fields)
  {
    if fields != [] {
      RefsWidth(m, bits[1..], fields[1..]);
      assert Refs(bits)[1..] == Refs(bits[1..]);
      forall k | 0 <= k < |fields|
        ensures Width(m, Refs(bits)[k]) <= PackedWidth(fields)
      {
        if k > 0 {
          assert Refs(bits)[k] == Refs(bits[1..])[k - 1];
        }
      }
    }
  }

  lemma {:induction false} RefsMeaning(m: Module, st: Store, bits: seq<Signal>, fields: seq<BitType>)
    requires BitsTyped(m, bits, fields)
    ensures MeaningParts(m, st, Refs(bits)) == Pack(BitValues(st, bits), fields)
  {
    if fields != [] {
      RefsMeaning(m, st, bits[1..], fields[1..]);
      RefsWidth(m, bits[1..], fields[1..]);
      assert Refs(bits)[1..] == Refs(bits[1..]);
      assert BitValues(st, bits)[1..] == BitValues(st, bits[1..]);
    }
  }

  lemma BitsFit(m: Module, st: Store, bits: seq<Signal>, fields: seq<BitType>)
    requires BitsTyped(m, bits, fields) && InRange(m, st)
    ensures Fit(BitValues(st, bits), fields)
  {
    forall k | 0 <= k < |fields|
      ensures BitValues(st, bits)[k] < Pow2(fields[k].width)
    {
      assert SignalType(m, bits[k]) == Some(fields[k]);
    }
  }

  /** The simulator's `concat` of the field signals is the packed number. */
  lemma ConcatPacks(m: Module, st: Store, bits: seq<Signal>, fields: seq<BitType>)
    requires BitsTyped(m, bits, fields) && InRange(m, st) && PackedWidth(fields) <= BITS
    ensures Eval(m, st, Concat(Refs(bits))) == Pack(BitValues(st, bits), fields)
    ensures Eval(m, st, Concat(Refs(bits))) < Pow2(PackedWidth(fields))
  {
    RefsWidth(m, bits, fields);
    RefsMeaning(m, st, bits, fields);
    PartsAgree(m, st, Refs(bits));
    BitsFit(m, st, bits, fields);
    PackBound(BitValues(st, bits), fields);
  }

  /** The simulator's `unpack_bundle_field` takes out field k, signed or not. */
  lemma UnpackField(m: Module, st: Store, readData: Signal, fields: seq<BitType>, k: nat)
    requires k < |fields|
    ensures Eval(m, st, Unpack(readData, fields, k)) == Field(Get(st.values, readData), fields, k)
  {
    var slice := Slice(Ref(readData), PackedWidth(fields[k + 1..]), fields[k].width);
    assert Eval(m, st, Ref(readData)) == Get(st.values, readData);
    assert Eval(m, st, slice) == Field(Get(st.values, readData), fields, k);
    assert Eval(m, st, Cast(slice, Signed)) == Eval(m, st, slice);
  }

  /** Round trip: unpacking what `concat` wrote gives back every field. */
  lemma BundleRoundTrip(m: Module, st: Store, bits: seq<Signal>, fields: seq<BitType>,
                        st': Store, readData: Signal, k: nat)
    requires BitsTyped(m, bits, fields) && InRange(m, st) && PackedWidth(fields) <= BITS
    requires Get(st'.values, readData) == Eval(m, st, Concat(Refs(bits)))
    requires k < |fields|
    ensures Eval(m, st', Unpack(readData, fields, k)) == Get(st.values, bits[k])
  {
    ConcatPacks(m, st, bits, fields);
    UnpackField(m, st', readData, fields, k);
    BitsFit(m, st, bits, fields);
    PackField(BitValues(st, bits), fields, k);
  }
}
