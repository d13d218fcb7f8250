/** Positional notation, most significant digit first. */
module Digits {

  function Val(base: nat, ds: seq<nat>): nat {
    if ds == [] then 0 else Val(base, ds[..|ds| - 1]) * base + ds[|ds| - 1]
  }

  ghost predicate AllBelow(ds: seq<nat>, base: nat) {
    forall i :: 0 <= i < |ds| ==> ds[i] < base
  }

  lemma ValAppend(base: nat, ds: seq<nat>, d: nat)
    ensures Val(base, ds + [d]) == Val(base, ds) * base + d
  {
    assert (ds + [d])[..|ds|] == ds;
  }

  lemma QuotientUnique(base: nat, x: nat, d: nat, y: nat, e: nat)
    requires d < base && e < base && x * base + d == y * base + e
    ensures x == y && d == e
  {
    if x < y {
      MulGap(x, y, base);
    } else if y < x {
      MulGap(y, x, base);
    }
  }

  lemma MulGap(x: nat, y: nat, base: nat)
    requires x < y
    ensures x * base + base <= y * base
    decreases y
  {
    assert y * base == (y - 1) * base + base;
    if x < y - 1 {
      MulGap(x, y - 1, base);
    }
  }

  /** Two numerals of the same length denote the same number only when they are equal. */
  lemma {:induction false} ValInjective(base: nat, a: seq<nat>, b: seq<nat>)
    requires |a| == |b| && AllBelow(a, base) && AllBelow(b, base) && Val(base, a) == Val(base, b)
    ensures a == b
  {
    if a != [] {
      var n := |a| - 1;
      QuotientUnique(base, Val(base, a[..n]), a[n], Val(base, b[..n]), b[n]);
      ValInjective(base, a[..n], b[..n]);
      assert a == a[..n] + [a[n]] && b == b[..n] + [b[n]];
    }
  }

  // ----- Powers of two -----

  function Pow2(n: nat): (p: nat)
    ensures p > 0
  {
    if n == 0 then 1 else 2 * Pow2(n - 1)
  }

  lemma {:induction false} Pow2Add(a: nat, b: nat)
    ensures Pow2(a + b) == Pow2(a) * Pow2(b)
  {
    if a > 0 {
      Pow2Add(a - 1, b);
      assert Pow2(a) * Pow2(b) == 2 * (Pow2(a - 1) * Pow2(b));
    }
  }

  lemma {:induction false} Pow2Monotone(a: nat, b: nat)
    requires a <= b
    ensures Pow2(a) <= Pow2(b)
  {
    if a < b { Pow2Monotone(a, b - 1); }
  }
}
