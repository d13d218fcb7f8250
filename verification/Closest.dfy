/** The closeness order (`isNodeCloser`) and closest-node selection (`getClosestNodes`).

    The program compares distance bytes as plain `char`, signed on some targets and unsigned on others, so
    everything here is stated for both. */
module Closest {
  import opened Machine
  import opened Sequences
  import opened Digits
  import opened Kademlia

  function CharValue(signed: bool, x: bv8): int {
    if signed && x >= 128 then x as int - 256 else x as int
  }

  /** First differing byte decides. */
  function LexLess(signed: bool, d: NodeId, e: NodeId): bool {
    if d == [] || e == [] then false
    else if CharValue(signed, d[0]) < CharValue(signed, e[0]) then true
    else if CharValue(signed, d[0]) > CharValue(signed, e[0]) then false
    else LexLess(signed, d[1..], e[1..])
  }

  /** `a` is closer to `our` than `b`; false when either cannot be compared with `our`. */
  predicate Closer(signed: bool, our: NodeId, a: NodeId, b: NodeId) {
    LexLess(signed, Xor(our, a), Xor(our, b))
  }

  method IsNodeCloser(signed: bool, our: NodeId, a: NodeId, b: NodeId) returns (r: bool)
    ensures r == Closer(signed, our, a, b)
  {
    var d := CalculateXorDistance(our, a);
    var e := CalculateXorDistance(our, b);
    if d == [] || e == [] {
      return false;
    }
    var i := 0;
    while i < |d|
      invariant 0 <= i <= |d| == |e|
      invariant LexLess(signed, d[i..], e[i..]) == LexLess(signed, d, e)
    {
      assert d[i..][1..] == d[i + 1..] && e[i..][1..] == e[i + 1..];
      if CharValue(signed, d[i]) < CharValue(signed, e[i]) {
        return true;
      } else if CharValue(signed, d[i]) > CharValue(signed, e[i]) {
        return false;
      }
      i := i + 1;
    }
    return false;
  }

  // ----- A strict total order -----

  lemma CharValueInjective(signed: bool, x: bv8, y: bv8)
    ensures CharValue(signed, x) == CharValue(signed, y) <==> x == y
  {
  }

  lemma {:induction false} LexIrreflexive(signed: bool, d: NodeId)
    ensures !LexLess(signed, d, d)
  {
    if d != [] {
      LexIrreflexive(signed, d[1..]);
    }
  }

  lemma {:induction false} LexTotal(signed: bool, d: NodeId, e: NodeId)
    requires |d| == |e| && d != e
    ensures LexLess(signed, d, e) != LexLess(signed, e, d)
  {
    CharValueInjective(signed, d[0], e[0]);
    if d[0] == e[0] {
      SameHead(d, e);
      LexTotal(signed, d[1..], e[1..]);
    }
  }

  lemma SameHead(d: NodeId, e: NodeId)
    requires d != [] && e != [] && d[0] == e[0] && d != e
    ensures d[1..] != e[1..]
  {
    assert d == [d[0]] + d[1..] && e == [e[0]] + e[1..];
  }

  lemma {:induction false} LexTransitive(signed: bool, d: NodeId, e: NodeId, f: NodeId)
    requires |d| == |e| == |f| && LexLess(signed, d, e) && LexLess(signed, e, f)
    ensures LexLess(signed, d, f)
  {
    if CharValue(signed, d[0]) == CharValue(signed, e[0]) == CharValue(signed, f[0]) {
      LexTransitive(signed, d[1..], e[1..], f[1..]);
    }
  }

  lemma XorTwice(our: NodeId, a: NodeId)
    requires |our| == |a|
    ensures Xor(our, Xor(our, a)) == a
  {
    forall i | 0 <= i < |a| ensures Xor(our, Xor(our, a))[i] == a[i] {
      XorByteTwice(our[i], a[i]);
    }
  }

  lemma XorByteTwice(x: bv8, y: bv8)
    ensures x ^ (x ^ y) == y
  {
  }

  /** On ids of our length, closeness is irreflexive, transitive, and decides every pair of distinct ids. */
  lemma CloserIsStrictTotalOrder(signed: bool, our: NodeId, a: NodeId, b: NodeId, c: NodeId)
    requires |our| == |a| == |b| == |c|
    ensures !Closer(signed, our, a, a)
    ensures a != b ==> Closer(signed, our, a, b) != Closer(signed, our, b, a)
    ensures Closer(signed, our, a, b) && Closer(signed, our, b, c) ==> Closer(signed, our, a, c)
  {
    var d, e, f := Xor(our, a), Xor(our, b), Xor(our, c);
    LexIrreflexive(signed, d);
    if a != b {
      XorTwice(our, a);
      XorTwice(our, b);
      LexTotal(signed, d, e);
    }
    if LexLess(signed, d, e) && LexLess(signed, e, f) {
      LexTransitive(signed, d, e, f);
    }
  }

  // ----- The order and the numeric distance -----

  lemma NumberOrder(x: nat, y: nat, p: nat, r: nat, s: nat)
    requires x < y && r < p
    ensures x * p + r < y * p + s
  {
    ScaleUp(x, x, y, p, r);
  }

  /** With unsigned bytes the code's order is the numeric order of XOR distances. */
  lemma {:induction false} UnsignedOrderIsNumeric(d: NodeId, e: NodeId)
    requires |d| == |e|
    ensures LexLess(false, d, e) <==> Number(Values(d)) < Number(Values(e))
  {
    if d != [] {
      var v, u := Values(d), Values(e);
      var p := Pow2(8 * (|d| - 1));
      NumberFront(v);
      NumberFront(u);
      assert v[1..] == Values(d[1..]) && u[1..] == Values(e[1..]);
      NumberBound(v[1..]);
      NumberBound(u[1..]);
      if v[0] < u[0] {
        NumberOrder(v[0], u[0], p, Number(v[1..]), Number(u[1..]));
      } else if u[0] < v[0] {
        NumberOrder(u[0], v[0], p, Number(u[1..]), Number(v[1..]));
      } else {
        UnsignedOrderIsNumeric(d[1..], e[1..]);
      }
    }
  }

  /** The first differing bytes are both below 128 or both not. */
  predicate SameHalf(d: NodeId, e: NodeId) {
    if d == [] || e == [] then true
    else if d[0] != e[0] then d[0] < 128 <==> e[0] < 128
    else SameHalf(d[1..], e[1..])
  }

  lemma {:induction false} SignedOrderAgrees(d: NodeId, e: NodeId)
    requires |d| == |e|
    ensures LexLess(true, d, e) == LexLess(false, d, e) <==> SameHalf(d, e)
  {
    if d != [] {
      SignedByteOrder(d[0], e[0]);
      SignedOrderAgrees(d[1..], e[1..]);
    }
  }

  ghost predicate SignedLess(signed: bool, x: bv8, y: bv8) {
    CharValue(signed, x) < CharValue(signed, y)
  }

  lemma SignedByteOrder(x: bv8, y: bv8)
    ensures x == y <==> CharValue(true, x) == CharValue(true, y)
    ensures x == y <==> CharValue(false, x) == CharValue(false, y)
    ensures x != y ==>
      (SignedLess(true, x, y) == SignedLess(false, x, y)) == (x < 128 <==> y < 128)
  {
    UnsignedOrder(x, 128);
    UnsignedOrder(y, 128);
    CharValueInjective(true, x, y);
    CharValueInjective(false, x, y);
  }

  /** The code picks the numerically closer of two ids exactly when `char` is unsigned or the first
      differing distance bytes lie in the same half. */
  lemma CloserIsNumericExactly(signed: bool, our: NodeId, a: NodeId, b: NodeId)
    requires |our| == |a| == |b|
    ensures
      (Closer(signed, our, a, b) == (Distance(our, a) < Distance(our, b))) ==
      (!signed || SameHalf(Xor(our, a), Xor(our, b)))
  {
    UnsignedOrderIsNumeric(Xor(our, a), Xor(our, b));
    SignedOrderAgrees(Xor(our, a), Xor(our, b));
  }

  // ----- Selection -----

  ghost predicate SameLength(ids: seq<NodeId>, n: nat) {
    forall i :: 0 <= i < |ids| ==> |ids[i]| == n
  }

  /** No later id is closer than an earlier one: what `std::sort` establishes. */
  ghost predicate Ordered(signed: bool, our: NodeId, ids: seq<NodeId>) {
    forall i, j :: 0 <= i < j < |ids| ==> !Closer(signed, our, ids[j], ids[i])
  }

  lemma NotCloserChains(signed: bool, our: NodeId, a: NodeId, b: NodeId, c: NodeId)
    requires |a| == |b| == |c| && !Closer(signed, our, a, b) && !Closer(signed, our, b, c)
    ensures !Closer(signed, our, a, c)
  {
    if |our| == |a| {
      CloserIsStrictTotalOrder(signed, our, a, b, c);
      CloserIsStrictTotalOrder(signed, our, b, c, a);
      CloserIsStrictTotalOrder(signed, our, c, b, a);
      CloserIsStrictTotalOrder(signed, our, a, c, b);
    }
  }

  lemma CloserOneWay(signed: bool, our: NodeId, a: NodeId, b: NodeId)
    requires |a| == |b| && Closer(signed, our, a, b)
    ensures !Closer(signed, our, b, a)
  {
    if |our| == |a| {
      CloserIsStrictTotalOrder(signed, our, a, b, a);
    }
  }

  /** Where a new id goes among ordered ones: after those it is not closer than. */
  method InsertPosition(signed: bool, our: NodeId, s: seq<NodeId>, x: NodeId) returns (j: nat)
    requires SameLength(s, |x|) && Ordered(signed, our, s)
    ensures j <= |s|
    ensures forall i :: 0 <= i < j ==> !Closer(signed, our, x, s[i])
    ensures forall i :: j <= i < |s| ==> !Closer(signed, our, s[i], x)
  {
    j := |s|;
    while j > 0
      invariant 0 <= j <= |s|
      invariant forall i :: j <= i < |s| ==> !Closer(signed, our, s[i], x)
    {
      var closer := IsNodeCloser(signed, our, x, s[j - 1]);
      if !closer {
        forall i | 0 <= i < j ensures !Closer(signed, our, x, s[i]) {
          if i < j - 1 {
            NotCloserChains(signed, our, x, s[j - 1], s[i]);
          }
        }
        return;
      }
      CloserOneWay(signed, our, x, s[j - 1]);
      j := j - 1;
    }
  }

  lemma InsertKeepsOrder(signed: bool, our: NodeId, s: seq<NodeId>, x: NodeId, j: nat)
    requires Ordered(signed, our, s) && j <= |s|
    requires forall i :: 0 <= i < j ==> !Closer(signed, our, x, s[i])
    requires forall i :: j <= i < |s| ==> !Closer(signed, our, s[i], x)
    ensures Ordered(signed, our, s[..j] + [x] + s[j..])
  {
  }

  lemma InsertKeepsAll(s: seq<NodeId>, ids: seq<NodeId>, k: nat, j: nat, n: nat)
    requires k < |ids| && j <= |s| && multiset(s) == multiset(ids[..k]) && SameLength(s, n) && |ids[k]| == n
    ensures var r := s[..j] + [ids[k]] + s[j..]; multiset(r) == multiset(ids[..k + 1]) && SameLength(r, n)
  {
    assert ids[..k + 1] == ids[..k] + [ids[k]];
    assert s == s[..j] + s[j..];
  }

  /** Stands for `std::sort` with the closeness comparator; `ClosestUnique` shows that any other sort
      returns the same list. */
  method SortByCloseness(signed: bool, our: NodeId, ids: seq<NodeId>, n: nat) returns (s: seq<NodeId>)
    requires SameLength(ids, n)
    ensures multiset(s) == multiset(ids) && Ordered(signed, our, s)
  {
    s := [];
    var k := 0;
    while k < |ids|
      invariant 0 <= k <= |ids|
      invariant multiset(s) == multiset(ids[..k]) && SameLength(s, n) && Ordered(signed, our, s)
    {
      var x := ids[k];
      var j := InsertPosition(signed, our, s, x);
      InsertKeepsOrder(signed, our, s, x, j);
      InsertKeepsAll(s, ids, k, j, n);
      s := s[..j] + [x] + s[j..];
      k := k + 1;
    }
    assert ids[..k] == ids;
  }

  function Cut(ids: seq<NodeId>, count: int): seq<NodeId> {
    if 0 < count < |ids| then ids[..count] else ids
  }

  /** `r` is an acceptable answer for the registered ids `all`, in whatever order they are enumerated. */
  ghost predicate ClosestOf(signed: bool, our: NodeId, all: seq<NodeId>, count: int, r: seq<NodeId>) {
    exists s :: multiset(s) == multiset(all) && Ordered(signed, our, s) && r == Cut(s, count)
  }

  method GetClosestNodes(signed: bool, our: NodeId, all: seq<NodeId>, target: NodeId, count: Int32)
    returns (r: seq<NodeId>)
    requires SameLength(all, 20)
    ensures ClosestOf(signed, our, all, count, r)
  {
    var s := SortByCloseness(signed, our, all, 20);
    r := Cut(s, count);
  }

  lemma PermutationFacts(s: seq<NodeId>, all: seq<NodeId>, n: nat)
    requires multiset(s) == multiset(all) && SameLength(all, n) && NoRepeats(all)
    ensures |s| == |all| && SameLength(s, n) && NoRepeats(s)
    ensures forall x :: x in s <==> x in all
  {
    assert |multiset(s)| == |s| && |multiset(all)| == |all|;
    forall x ensures x in s <==> x in all {
      assert x in multiset(s) <==> x in multiset(all);
    }
    forall i | 0 <= i < |s| ensures |s[i]| == n {
      assert s[i] in all;
    }
    forall x | x in s ensures multiset(s)[x] == 1 {
      OnceOnly(all, x);
    }
    forall i, j | 0 <= i < j < |s| ensures s[i] != s[j] {
      if s[i] == s[j] { CountedTwice(s, i, j); }
    }
  }

  lemma CountedTwice(s: seq<NodeId>, i: nat, j: nat)
    requires i < j < |s| && s[i] == s[j]
    ensures multiset(s)[s[i]] >= 2
  {
    assert s == s[..i] + [s[i]] + s[i + 1..j] + [s[j]] + s[j + 1..];
  }

  lemma {:induction false} OnceOnly(all: seq<NodeId>, x: NodeId)
    requires NoRepeats(all) && x in all
    ensures multiset(all)[x] == 1
  {
    var i :| 0 <= i < |all| && all[i] == x;
    assert all == all[..i] + [x] + all[i + 1..];
    assert x !in all[..i] && x !in all[i + 1..];
  }

  lemma OrderedIsStrict(signed: bool, our: NodeId, s: seq<NodeId>, i: nat, j: nat)
    requires SameLength(s, |our|) && NoRepeats(s) && Ordered(signed, our, s) && i < j < |s|
    ensures Closer(signed, our, s[i], s[j])
  {
    CloserIsStrictTotalOrder(signed, our, s[i], s[j], s[i]);
  }

  /** The answer is strictly sorted, repeats nothing, has the asked size, and every registered id left
      out is farther than every id returned. */
  lemma ClosestAreClosest(signed: bool, our: NodeId, all: seq<NodeId>, count: int, r: seq<NodeId>)
    requires SameLength(all, |our|) && NoRepeats(all) && ClosestOf(signed, our, all, count, r)
    ensures |r| == if 0 < count < |all| then count else |all|
    ensures NoRepeats(r) && forall x :: x in r ==> x in all
    ensures forall i, j :: 0 <= i < j < |r| ==> Closer(signed, our, r[i], r[j])
    ensures forall x, y :: x in all && x !in r && y in r ==> Closer(signed, our, y, x)
  {
    var s :| multiset(s) == multiset(all) && Ordered(signed, our, s) && r == Cut(s, count);
    PermutationFacts(s, all, |our|);
    forall i, j | 0 <= i < j < |s| ensures Closer(signed, our, s[i], s[j]) {
      OrderedIsStrict(signed, our, s, i, j);
    }
    forall x, y | x in all && x !in r && y in r ensures Closer(signed, our, y, x) {
      var i :| 0 <= i < |r| && r[i] == y;
      var j :| 0 <= j < |s| && s[j] == x;
      assert forall k :: 0 <= k < |r| ==> s[k] == r[k];
      assert |r| <= j;
    }
  }

  /** There is only one acceptable answer, so the sorting algorithm does not matter. */
  lemma ClosestUnique(signed: bool, our: NodeId, all: seq<NodeId>, count: int, r: seq<NodeId>, r': seq<NodeId>)
    requires SameLength(all, |our|) && NoRepeats(all)
    requires ClosestOf(signed, our, all, count, r) && ClosestOf(signed, our, all, count, r')
    ensures r == r'
  {
    var s :| multiset(s) == multiset(all) && Ordered(signed, our, s) && r == Cut(s, count);
    var t :| multiset(t) == multiset(all) && Ordered(signed, our, t) && r' == Cut(t, count);
    PermutationFacts(s, all, |our|);
    PermutationFacts(t, all, |our|);
    SortedUnique(signed, our, s, t);
  }

  lemma {:induction false} SortedUnique(signed: bool, our: NodeId, s: seq<NodeId>, t: seq<NodeId>)
    requires multiset(s) == multiset(t) && |s| == |t| && SameLength(s, |our|) && SameLength(t, |our|)
    requires NoRepeats(s) && NoRepeats(t) && Ordered(signed, our, s) && Ordered(signed, our, t)
    ensures s == t
  {
    if s != [] {
      SameFirst(signed, our, s, t);
      RestOf(signed, our, s);
      RestOf(signed, our, t);
      SortedUnique(signed, our, s[1..], t[1..]);
    }
  }

  lemma RestOf(signed: bool, our: NodeId, s: seq<NodeId>)
    requires s != [] && SameLength(s, |our|) && NoRepeats(s) && Ordered(signed, our, s)
    ensures SameLength(s[1..], |our|) && NoRepeats(s[1..]) && Ordered(signed, our, s[1..])
    ensures s == [s[0]] + s[1..] && multiset(s[1..]) == multiset(s) - multiset{s[0]}
  {
    assert s == [s[0]] + s[1..];
  }

  lemma SameFirst(signed: bool, our: NodeId, s: seq<NodeId>, t: seq<NodeId>)
    requires multiset(s) == multiset(t) && s != [] && t != [] && SameLength(s, |our|) && SameLength(t, |our|)
    requires NoRepeats(s) && NoRepeats(t) && Ordered(signed, our, s) && Ordered(signed, our, t)
    ensures s[0] == t[0]
  {
    assert s[0] in multiset(t) && t[0] in multiset(s);
    var i :| 0 <= i < |t| && t[i] == s[0];
    var j :| 0 <= j < |s| && s[j] == t[0];
    if 0 < i && 0 < j {
      OrderedIsStrict(signed, our, t, 0, i);
    }
  }

  // ----- The target is ignored -----

  /** Every answer, for every set of registered ids, is sorted by closeness to `target`. */
  ghost predicate ServesTarget(signed: bool, our: NodeId, target: NodeId) {
    forall all: seq<NodeId>, r: seq<NodeId> ::
      SameLength(all, |our|) && NoRepeats(all) && ClosestOf(signed, our, all, 0, r) ==> Ordered(signed, target, r)
  }

  /** Selection is by distance to our own id, so it serves a target exactly when the target is our id. */
  lemma ServesOnlyOurself(signed: bool, our: NodeId, target: NodeId)
    requires |our| == |target| > 0
    ensures ServesTarget(signed, our, target) <==> target == our
  {
    if target == our {
      forall all: seq<NodeId>, r: seq<NodeId>
        | SameLength(all, |our|) && NoRepeats(all) && ClosestOf(signed, our, all, 0, r)
        ensures Ordered(signed, target, r)
      {
        var s :| multiset(s) == multiset(all) && Ordered(signed, our, s) && r == Cut(s, 0);
      }
    } else {
      var r := MisorderedPair(signed, our, target);
      assert NoRepeats([our, target]) && SameLength([our, target], |our|);
    }
  }

  /** Our id and the target, sorted by distance to us, are in the wrong order for the target. */
  lemma MisorderedPair(signed: bool, our: NodeId, target: NodeId) returns (r: seq<NodeId>)
    requires |our| == |target| && our != target
    ensures ClosestOf(signed, our, [our, target], 0, r) && !Ordered(signed, target, r)
  {
    XorSymmetric(our, target);
    CloserIsStrictTotalOrder(signed, our, our, target, our);
    CloserIsStrictTotalOrder(signed, our, target, our, target);
    r := if Closer(signed, our, our, target) then [our, target] else [target, our];
    assert Ordered(signed, our, r) && Cut(r, 0) == r && multiset(r) == multiset([our, target]);
    assert Closer(signed, target, r[1], r[0]);
  }

  lemma XorSymmetric(a: NodeId, b: NodeId)
    requires |a| == |b|
    ensures Xor(a, b) == Xor(b, a) && Xor(a, a) == Xor(b, b)
  {
    forall i | 0 <= i < |a| ensures Xor(a, b)[i] == Xor(b, a)[i] && Xor(a, a)[i] == Xor(b, b)[i] {
      XorByteSymmetric(a[i], b[i]);
    }
  }

  lemma XorByteSymmetric(x: bv8, y: bv8)
    ensures x ^ y == y ^ x && x ^ x == y ^ y
  {
  }
}
