/** Sequences without repetitions, and dropping elements from them. */
module Sequences {

  ghost predicate NoRepeats<T(!new)>(s: seq<T>) {
    forall i, j :: 0 <= i < j < |s| ==> s[i] != s[j]
  }

  /** `std::remove` then `erase`: what is left of `s` without the elements of `gone`, in order. */
  function Drop<T(==)>(s: seq<T>, gone: set<T>): (r: seq<T>)
    ensures forall x :: x in r ==> x in s && x !in gone
    ensures forall x :: x in s && x !in gone ==> x in r
  {
    if s == [] then [] else Drop(s[..|s| - 1], gone) + (if s[|s| - 1] in gone then [] else [s[|s| - 1]])
  }

  lemma {:induction false} DropKeepsNoRepeats<T(!new)>(s: seq<T>, gone: set<T>)
    requires NoRepeats(s)
    ensures NoRepeats(Drop(s, gone))
  {
    if s != [] {
      var n := |s| - 1;
      DropKeepsNoRepeats(s[..n], gone);
      assert s[n] !in s[..n];
    }
  }

  /** Dropping looks at one element at a time, so what is left keeps its order and its repetitions. */
  lemma DropAppend<T>(s: seq<T>, x: T, gone: set<T>)
    ensures Drop(s + [x], gone) == Drop(s, gone) + if x in gone then [] else [x]
  {
    assert (s + [x])[..|s|] == s;
  }

  lemma AppendKeepsNoRepeats<T(!new)>(a: seq<T>, b: seq<T>)
    requires NoRepeats(a) && NoRepeats(b) && forall x :: x in a ==> x !in b
    ensures NoRepeats(a + b)
  {
    forall i, j | 0 <= i < j < |a + b| ensures (a + b)[i] != (a + b)[j] {
      if i < |a| <= j {
        assert a[i] in a && b[j - |a|] in b;
      }
    }
  }
}
