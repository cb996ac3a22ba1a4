/** Sequences without repetition, and how counting finds a repetition. */
module Distinct {

  predicate Distinct<T(==)>(s: seq<T>) {
    forall i, j | 0 <= i < j < |s| :: s[i] != s[j]
  }

  lemma TwicePresent<T>(s: seq<T>, j: nat, k: nat)
    requires j < k < |s| && s[j] == s[k]
    ensures multiset(s)[s[j]] >= 2
  {
    assert s == s[..k] + s[k..];
    assert s[j] in s[..k] && s[k] in s[k..];
  }

  lemma {:induction false} OncePresent<T>(s: seq<T>, n: nat, k: nat)
    requires k < n <= |s| && Distinct(s)
    ensures multiset(s[..n])[s[k]] == 1
    decreases n
  {
    assert s[..n] == s[..n - 1] + [s[n - 1]];
    if k < n - 1 {
      OncePresent(s, n - 1, k);
    } else {
      assert s[k] !in s[..n - 1];
    }
  }

  /** A sequence repeats nothing exactly when nothing is counted twice. */
  lemma DistinctByCount<T>(s: seq<T>)
    ensures Distinct(s) <==> forall x | x in s :: multiset(s)[x] <= 1
  {
    if Distinct(s) {
      assert s[..|s|] == s;
      forall x | x in s
        ensures multiset(s)[x] <= 1
      {
        var k :| 0 <= k < |s| && s[k] == x;
        OncePresent(s, |s|, k);
      }
    } else {
      var j, k :| 0 <= j < k < |s| && s[j] == s[k];
      TwicePresent(s, j, k);
      assert s[j] in s;
    }
  }

  /** Parts of a concatenation without repetition share nothing. */
  lemma DistinctParts<T>(a: seq<T>, b: seq<T>)
    requires Distinct(a + b)
    ensures Distinct(a) && Distinct(b)
    ensures forall i, j | 0 <= i < |a| && 0 <= j < |b| :: a[i] != b[j]
  {
    var s := a + b;
    forall i, j | 0 <= i < j < |b|
      ensures b[i] != b[j]
    {
      assert s[|a| + i] == b[i] && s[|a| + j] == b[j];
    }
    forall i, j | 0 <= i < |a| && 0 <= j < |b|
      ensures a[i] != b[j]
    {
      assert s[i] == a[i] && s[|a| + j] == b[j];
    }
    forall i, j | 0 <= i < j < |a|
      ensures a[i] != a[j]
    {
      assert s[i] == a[i] && s[j] == a[j];
    }
  }
}
