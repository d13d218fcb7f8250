/** Sums of counters, one per worker or per entry. */
module Totals {

  ghost function Total(ns: seq<nat>): nat {
    if ns == [] then 0 else Total(ns[..|ns| - 1]) + ns[|ns| - 1]
  }

  lemma {:induction false} TotalUpdate(ns: seq<nat>, i: nat, v: nat)
    requires i < |ns|
    ensures Total(ns[i := v]) + ns[i] == Total(ns) + v
  {
    var n := |ns| - 1;
    if i == n {
      assert ns[i := v][..n] == ns[..n];
    } else {
      TotalUpdate(ns[..n], i, v);
      assert ns[i := v][..n] == ns[..n][i := v];
    }
  }

  lemma TotalAppend(ns: seq<nat>, v: nat)
    ensures Total(ns + [v]) == Total(ns) + v
  {
    assert (ns + [v])[..|ns|] == ns;
  }

  lemma {:induction false} TotalZero(ns: seq<nat>)
    requires forall i :: 0 <= i < |ns| ==> ns[i] == 0
    ensures Total(ns) == 0
  {
    if ns != [] { TotalZero(ns[..|ns| - 1]); }
  }

  lemma {:induction false} TotalConstant(ns: seq<nat>, v: nat)
    requires forall i :: 0 <= i < |ns| ==> ns[i] == v
    ensures Total(ns) == |ns| * v
  {
    if ns != [] {
      TotalConstant(ns[..|ns| - 1], v);
      assert |ns| * v == (|ns| - 1) * v + v;
    }
  }
}
