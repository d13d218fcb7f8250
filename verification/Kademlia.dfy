/** XOR distance, bucket index and the closeness order of the routing table
    (`calculateXORDistance`, `calculateBucketIndex`, `isNodeCloser`). */
module Kademlia {
  import opened Digits

  type NodeId = seq<bv8>

  /** Empty when the lengths differ. */
  function Xor(a: NodeId, b: NodeId): (d: NodeId)
    ensures |d| == if |a| == |b| then |a| else 0
  {
    if |a| != |b| then [] else seq(|a|, i requires 0 <= i < |a| => a[i] ^ b[i])
  }

  /** `__builtin_clz`: leading zero bits of a non-zero 32-bit word. */
  function Clz32(x: nat): nat
    requires 0 < x < 0x1_0000_0000
    decreases 0x1_0000_0000 - x
  {
    if x >= 0x8000_0000 then 0 else 1 + Clz32(2 * x)
  }

  /** The bytes of a distance as unsigned numbers. */
  function Values(d: NodeId): (v: seq<nat>)
    ensures |v| == |d| && AllBelow(v, 256)
  {
    seq(|d|, i requires 0 <= i < |d| => d[i] as int)
  }

  function IndexFrom(v: seq<nat>, i: nat): int
    requires i <= |v| && AllBelow(v, 256)
    decreases |v| - i
  {
    if i == |v| then 0
    else if v[i] != 0 then i * 8 + Clz32(v[i])
    else IndexFrom(v, i + 1)
  }

  /** The bucket a node goes to, as computed: -1 when the ids cannot be compared, 0 for our own id. */
  function BucketIndex(our: NodeId, id: NodeId): int {
    var d := Xor(our, id);
    if d == [] then -1 else IndexFrom(Values(d), 0)
  }

  // ----- The loops -----

  method CalculateXorDistance(a: NodeId, b: NodeId) returns (d: NodeId)
    ensures d == Xor(a, b)
  {
    d := [];
    if |a| != |b| {
      return;
    }
    var i := 0;
    while i < |a|
      invariant 0 <= i <= |a|
      invariant d == Xor(a, b)[..i]
    {
      d := d + [a[i] ^ b[i]];
      i := i + 1;
    }
  }

  method CalculateBucketIndex(our: NodeId, id: NodeId) returns (r: int)
    ensures r == BucketIndex(our, id)
  {
    var d := CalculateXorDistance(our, id);
    if d == [] {
      return -1;
    }
    var i := 0;
    while i < |d|
      invariant 0 <= i <= |d|
      invariant IndexFrom(Values(d), i) == IndexFrom(Values(d), 0)
    {
      if d[i] != 0 {
        return i * 8 + Clz32(d[i] as int);
      }
      i := i + 1;
    }
    return 0;
  }

  // ----- Distance as a number -----

  /** BEP 5: the XOR of two ids read as an unsigned integer, most significant byte first. */
  function Number(v: seq<nat>): nat {
    Val(256, v)
  }

  function Distance(a: NodeId, b: NodeId): nat {
    Number(Values(Xor(a, b)))
  }

  lemma ScaleUp(x: nat, lo: nat, hi: nat, p: nat, r: nat)
    requires lo <= x < hi && r < p
    ensures lo * p <= x * p + r < hi * p
  {
    MulOrder(lo, x, p);
    MulOrder(x + 1, hi, p);
    assert (x + 1) * p == x * p + p;
  }

  lemma MulOrder(x: nat, y: nat, p: nat)
    requires x <= y
    ensures x * p <= y * p
  {
    if x < y {
      MulGap(x, y, p);
    }
  }

  /** The same number read from the front. */
  lemma {:induction false} NumberFront(v: seq<nat>)
    requires v != []
    ensures Number(v) == v[0] * Pow2(8 * (|v| - 1)) + Number(v[1..])
  {
    var n := |v| - 1;
    if n == 0 {
      assert v[0] * Pow2(0) == v[0];
    } else {
      NumberFront(v[..n]);
      assert v[..n][1..] == v[1..][..n - 1];
      Pow2Step(v[0], 8 * (n - 1));
    }
  }

  lemma Pow2Step(x: nat, m: nat)
    ensures 256 * (x * Pow2(m)) == x * Pow2(m + 8)
  {
    Pow2Add(m, 8);
    assert Pow2(8) == 256;
  }

  lemma {:induction false} NumberBound(v: seq<nat>)
    requires AllBelow(v, 256)
    ensures Number(v) < Pow2(8 * |v|)
  {
    if v != [] {
      NumberBound(v[1..]);
      NumberFront(v);
      var m := 8 * (|v| - 1);
      ScaleUp(v[0], 0, 256, Pow2(m), Number(v[1..]));
      Pow2Add(8, m);
      assert Pow2(8) == 256;
    }
  }

  /** The value of bit `c` of a byte, counted from the most significant. */
  ghost function Weight(c: nat): nat
    requires c < 8
  {
    if c == 0 then 128 else if c == 1 then 64 else if c == 2 then 32 else if c == 3 then 16
    else if c == 4 then 8 else if c == 5 then 4 else if c == 6 then 2 else 1
  }

  /** Leading zero bits of a non-zero byte. */
  ghost function ByteLead(x: nat): (c: nat)
    requires 0 < x < 256
    ensures c < 8 && Weight(c) <= x < 2 * Weight(c)
  {
    if x >= 128 then 0 else if x >= 64 then 1 else if x >= 32 then 2 else if x >= 16 then 3
    else if x >= 8 then 4 else if x >= 4 then 5 else if x >= 2 then 6 else 7
  }

  lemma WeightIsPower(c: nat)
    requires c < 8
    ensures Weight(c) == Pow2(7 - c) && 2 * Weight(c) == Pow2(8 - c)
  {
    assert Pow2(0) == 1 && Pow2(1) == 2 && Pow2(2) == 4 && Pow2(3) == 8;
    assert Pow2(4) == 16 && Pow2(5) == 32 && Pow2(6) == 64 && Pow2(7) == 128;
  }

  lemma {:induction false} ClzShift(x: nat, k: nat)
    requires 0 < x && x * Pow2(k) < 0x1_0000_0000
    ensures 0 < x * Pow2(k) && x < 0x1_0000_0000 && Clz32(x) == k + Clz32(x * Pow2(k))
    decreases k
  {
    if k == 0 {
      assert x * Pow2(0) == x;
    } else {
      assert x * Pow2(k) == (2 * x) * Pow2(k - 1);
      MulOrder(1, Pow2(k - 1), 2 * x);
      assert 2 * x <= (2 * x) * Pow2(k - 1);
      ClzShift(2 * x, k - 1);
    }
  }

  /** Shifted left by its leading zeros, a byte fills its eight bits. */
  lemma ByteShift(x: nat, c: nat)
    requires 0 < x < 256 && c == ByteLead(x)
    ensures 128 <= x * Pow2(c) < 256
  {
    WeightTimesPower(c);
    Scaled(x, Weight(c), Pow2(c));
  }

  lemma WeightTimesPower(c: nat)
    requires c < 8
    ensures Weight(c) * Pow2(c) == 128
  {
    assert Pow2(0) == 1 && Pow2(1) == 2 && Pow2(2) == 4 && Pow2(3) == 8;
    assert Pow2(4) == 16 && Pow2(5) == 32 && Pow2(6) == 64 && Pow2(7) == 128;
  }

  lemma Scaled(x: nat, w: nat, p: nat)
    requires w * p == 128 && w <= x < 2 * w && 0 < p
    ensures 128 <= x * p < 256
  {
    MulOrder(w, x, p);
    MulGap(x, 2 * w, p);
    assert 2 * w * p == 2 * (w * p);
  }

  lemma WordShift(y: nat)
    requires 128 <= y < 256
    ensures Clz32(y) == 24
  {
    assert Pow2(24) == 0x100_0000 by { Pow2Add(12, 12); assert Pow2(12) == 4096; }
    ClzShift(y, 24);
  }

  /** A byte promoted to 32 bits always has 24 extra leading zeros. */
  lemma ClzOfByte(x: nat)
    requires 0 < x < 256
    ensures Clz32(x) == 24 + ByteLead(x)
  {
    var c := ByteLead(x);
    ByteShift(x, c);
    ClzShift(x, c);
    WordShift(x * Pow2(c));
  }

  ghost predicate NonZero(v: seq<nat>) {
    exists i :: 0 <= i < |v| && v[i] != 0
  }

  /** Leading zero bits of a distance. */
  ghost function Lead(v: seq<nat>): (p: nat)
    requires AllBelow(v, 256)
    ensures p <= 8 * |v|
  {
    if v == [] then 0 else if v[0] != 0 then ByteLead(v[0]) else 8 + Lead(v[1..])
  }

  lemma NonZeroTail(v: seq<nat>)
    requires NonZero(v) && v[0] == 0
    ensures NonZero(v[1..])
  {
    var i :| 0 <= i < |v| && v[i] != 0;
    assert v[1..][i - 1] != 0;
  }

  lemma {:induction false} IndexIsLead(v: seq<nat>, i: nat)
    requires i <= |v| && AllBelow(v, 256) && NonZero(v[i..])
    ensures IndexFrom(v, i) == 8 * i + 24 + Lead(v[i..])
    decreases |v| - i
  {
    assert v[i..][0] == v[i];
    if v[i] == 0 {
      NonZeroTail(v[i..]);
      assert v[i..][1..] == v[i + 1..];
      IndexIsLead(v, i + 1);
    } else {
      ClzOfByte(v[i]);
    }
  }

  lemma ShiftedRange(x: nat, e: nat, m: nat, r: nat)
    requires Pow2(e) <= x < Pow2(e + 1) && r < Pow2(m)
    ensures Pow2(m + e) <= x * Pow2(m) + r < Pow2(m + e + 1)
  {
    ScaleUp(x, Pow2(e), Pow2(e + 1), Pow2(m), r);
    Pow2Add(e, m);
    Pow2Add(e + 1, m);
  }

  lemma {:induction false} LeadRange(v: seq<nat>)
    requires AllBelow(v, 256) && NonZero(v)
    ensures Lead(v) < 8 * |v| && Pow2(8 * |v| - 1 - Lead(v)) <= Number(v) < Pow2(8 * |v| - Lead(v))
  {
    NumberFront(v);
    if v[0] != 0 {
      NumberBound(v[1..]);
      WeightIsPower(ByteLead(v[0]));
      ShiftedRange(v[0], 7 - ByteLead(v[0]), 8 * (|v| - 1), Number(v[1..]));
    } else {
      NonZeroTail(v);
      LeadRange(v[1..]);
    }
  }

  // ----- Single bytes -----

  /** The mask of bit `k` of a byte, from the most significant. */
  ghost function Mask(k: nat): bv8
    requires k < 8
  {
    if k == 0 then 128 else if k == 1 then 64 else if k == 2 then 32 else if k == 3 then 16
    else if k == 4 then 8 else if k == 5 then 4 else if k == 6 then 2 else 1
  }

  ghost predicate BitAt(x: bv8, k: nat)
    requires k < 8
  {
    x & Mask(k) != 0
  }

  /** The highest set bit of `x` is bit `c`. */
  ghost predicate Top(x: bv8, c: nat)
    requires c < 8
  {
    Mask(c) <= x && (c > 0 ==> x < Mask(c - 1))
  }

  lemma MaskValue(k: nat)
    requires k < 8
    ensures Mask(k) as int == Weight(k)
  {
  }

  lemma UnsignedOrder(x: bv8, y: bv8)
    ensures x < y <==> (x as int) < (y as int)
  {
  }

  lemma TopFromValue(x: bv8, c: nat)
    requires c < 8 && Mask(c) as int <= x as int && (c > 0 ==> (x as int) < Mask(c - 1) as int)
    ensures Top(x, c)
  {
    UnsignedOrder(x, Mask(c));
    if c > 0 {
      UnsignedOrder(x, Mask(c - 1));
    }
  }

  lemma ByteTop(x: bv8, v: nat)
    requires v == x as int && 0 < v
    ensures Top(x, ByteLead(v))
  {
    var c := ByteLead(v);
    MaskValue(c);
    if c > 0 {
      MaskValue(c - 1);
    }
    TopFromValue(x, c);
  }

  lemma BitsUpToTop(a: bv8, b: bv8, c: nat, k: nat)
    requires k <= c < 8 && Top(a ^ b, c)
    ensures BitAt(a, k) == BitAt(b, k) <==> k < c
  {
  }

  lemma BitsUpToLead(a: bv8, b: bv8, v: nat, k: nat)
    requires v == (a ^ b) as int && 0 < v && k <= ByteLead(v)
    ensures BitAt(a, k) == BitAt(b, k) <==> k < ByteLead(v)
  {
    ByteTop(a ^ b, v);
    BitsUpToTop(a, b, ByteLead(v), k);
  }

  lemma TopsCancel(x: bv8, y: bv8, c: nat)
    requires c < 8 && Top(x, c) && Top(y, c)
    ensures x ^ y < Mask(c)
  {
  }

  // ----- Common prefixes -----

  /** Bit `k` of an id, from the most significant bit of its first byte. */
  ghost predicate Bit(id: NodeId, k: nat)
    requires k < 8 * |id|
  {
    BitAt(id[k / 8], k % 8)
  }

  /** The first `p` bits agree and the next one differs. */
  ghost predicate CommonPrefix(a: NodeId, b: NodeId, p: nat) {
    && |a| == |b| && p < 8 * |a|
    && (forall k :: 0 <= k < p ==> Bit(a, k) == Bit(b, k))
    && Bit(a, p) != Bit(b, p)
  }

  lemma BitOfTail(id: NodeId, k: nat)
    requires 8 <= k < 8 * |id|
    ensures Bit(id, k) == Bit(id[1..], k - 8)
  {
    assert k / 8 - 1 == (k - 8) / 8 && k % 8 == (k - 8) % 8;
  }

  /** Prefixing an equal byte lengthens the common prefix by eight bits. */
  lemma PrefixGrows(a: NodeId, b: NodeId, p: nat)
    requires a != [] && b != [] && a[0] == b[0] && 8 <= p && CommonPrefix(a[1..], b[1..], p - 8)
    ensures CommonPrefix(a, b, p)
  {
    BitOfTail(a, p);
    BitOfTail(b, p);
    forall k | 0 <= k < p ensures Bit(a, k) == Bit(b, k) {
      if k >= 8 {
        BitOfTail(a, k);
        BitOfTail(b, k);
      }
    }
  }

  lemma FirstByteBits(a: NodeId, b: NodeId, v: nat, k: nat)
    requires |a| == |b| && a != [] && v == (a[0] ^ b[0]) as int && 0 < v && k <= ByteLead(v)
    ensures Bit(a, k) == Bit(b, k) <==> k < ByteLead(v)
  {
    BitOfHead(a, k);
    BitOfHead(b, k);
    BitsUpToLead(a[0], b[0], v, k);
  }

  lemma PrefixInFirstByte(a: NodeId, b: NodeId, c: nat)
    requires |a| == |b| && a != [] && c < 8 && forall k :: 0 <= k <= c ==> (Bit(a, k) == Bit(b, k) <==> k < c)
    ensures CommonPrefix(a, b, c)
  {
  }

  lemma PrefixOfHead(a: NodeId, b: NodeId, v: nat)
    requires |a| == |b| && a != [] && v == (a[0] ^ b[0]) as int && 0 < v
    ensures CommonPrefix(a, b, ByteLead(v))
  {
    forall k | 0 <= k <= ByteLead(v) ensures Bit(a, k) == Bit(b, k) <==> k < ByteLead(v) {
      FirstByteBits(a, b, v, k);
    }
    PrefixInFirstByte(a, b, ByteLead(v));
  }

  lemma BitOfHead(id: NodeId, k: nat)
    requires id != [] && k < 8
    ensures Bit(id, k) == BitAt(id[0], k)
  {
    assert k / 8 == 0 && k % 8 == k;
  }

  lemma XorHead(a: NodeId, b: NodeId)
    requires |a| == |b| && a != []
    ensures var v := Values(Xor(a, b)); v[0] == (a[0] ^ b[0]) as int && v[1..] == Values(Xor(a[1..], b[1..]))
    ensures Values(Xor(a, b))[0] == 0 <==> a[0] == b[0]
  {
    assert Xor(a, b)[1..] == Xor(a[1..], b[1..]);
    SameByte(a[0], b[0]);
  }

  lemma SameByte(x: bv8, y: bv8)
    ensures (x ^ y) as int == 0 <==> x == y
  {
    assert x ^ y == 0 <==> x == y;
  }

  lemma LeadIsCommonPrefix(a: NodeId, b: NodeId)
    requires |a| == |b| && NonZero(Values(Xor(a, b)))
    ensures CommonPrefix(a, b, Lead(Values(Xor(a, b))))
  {
    PrefixByLead(a, b, Lead(Values(Xor(a, b))));
  }

  /** The XOR of the two ids is not zero and has `p` leading zero bits. */
  ghost predicate XorLead(a: NodeId, b: NodeId, p: nat) {
    var v := Values(Xor(a, b));
    |a| == |b| && NonZero(v) && Lead(v) == p
  }

  lemma {:induction false} PrefixByLead(a: NodeId, b: NodeId, p: nat)
    requires XorLead(a, b, p)
    ensures CommonPrefix(a, b, p)
    decreases p
  {
    if p < 8 {
      DifferentHeads(a, b, p);
    } else {
      SameHeads(a, b, p);
      PrefixByLead(a[1..], b[1..], p - 8);
      PrefixGrows(a, b, p);
    }
  }

  lemma DifferentHeads(a: NodeId, b: NodeId, p: nat)
    requires XorLead(a, b, p) && p < 8
    ensures CommonPrefix(a, b, p)
  {
    XorHead(a, b);
    PrefixOfHead(a, b, Values(Xor(a, b))[0]);
  }

  lemma SameHeads(a: NodeId, b: NodeId, p: nat)
    requires XorLead(a, b, p) && p >= 8
    ensures a != [] && b != [] && a[0] == b[0] && XorLead(a[1..], b[1..], p - 8)
  {
    XorHead(a, b);
    NonZeroTail(Values(Xor(a, b)));
  }

  lemma {:induction false} DifferentMeansNonZero(a: NodeId, b: NodeId)
    requires |a| == |b|
    ensures a != b <==> NonZero(Values(Xor(a, b)))
  {
    forall i | 0 <= i < |a| ensures Values(Xor(a, b))[i] == 0 <==> a[i] == b[i] {
      SameByte(a[i], b[i]);
    }
  }

  /** For another id of our length: the index is 24 above the common-prefix length p, and the distance
      lies in [2^(bits-1-p), 2^(bits-p)). */
  lemma IndexMeaning(our: NodeId, id: NodeId)
    requires |our| == |id| && our != id
    ensures
      var p := BucketIndex(our, id) - 24;
      0 <= p && CommonPrefix(our, id, p) && Pow2(8 * |our| - 1 - p) <= Distance(our, id) < Pow2(8 * |our| - p)
  {
    BucketIsLead(our, id);
    LeadIsCommonPrefix(our, id);
    LeadRange(Values(Xor(our, id)));
  }

  /** The remaining cases: -1 for ids of another length (or an empty id), 0 for our own id only. */
  lemma IndexSpecialCases(our: NodeId, id: NodeId)
    ensures BucketIndex(our, id) == -1 <==> |our| != |id| || our == []
    ensures BucketIndex(our, id) == 0 <==> our == id && our != []
  {
    if |our| == |id| {
      DifferentMeansNonZero(our, id);
      if our != id {
        IndexMeaning(our, id);
      } else {
        SelfIndex(Values(Xor(our, id)), 0);
      }
    }
  }

  lemma {:induction false} SelfIndex(v: seq<nat>, i: nat)
    requires i <= |v| && !NonZero(v) && AllBelow(v, 256)
    ensures IndexFrom(v, i) == 0
    decreases |v| - i
  {
    if i < |v| { SelfIndex(v, i + 1); }
  }

  /** A larger index is a strictly smaller distance. */
  lemma LargerIndexIsCloser(our: NodeId, a: NodeId, b: NodeId)
    requires |our| == |a| == |b| && our != a && our != b && BucketIndex(our, a) < BucketIndex(our, b)
    ensures Distance(our, b) < Distance(our, a)
  {
    IndexMeaning(our, a);
    IndexMeaning(our, b);
    Pow2Monotone(8 * |our| - (BucketIndex(our, b) - 24), 8 * |our| - 1 - (BucketIndex(our, a) - 24));
  }

  lemma BytesCancel(x: bv8, y: bv8, v: nat, u: nat)
    requires v == x as int && u == y as int && 0 < v && 0 < u && ByteLead(v) == ByteLead(u)
    ensures (x ^ y) as int < Weight(ByteLead(v))
  {
    var c := ByteLead(v);
    ByteTop(x, v);
    ByteTop(y, u);
    TopsCancel(x, y, c);
    UnsignedOrder(x ^ y, Mask(c));
    MaskValue(c);
  }

  lemma SmallHead(x: seq<nat>, c: nat)
    requires x != [] && AllBelow(x, 256) && c < 8 && x[0] < Weight(c)
    ensures Number(x) < Pow2(8 * |x| - 1 - c)
  {
    WeightIsPower(c);
    var m := 8 * (|x| - 1);
    NumberBound(x[1..]);
    NumberFront(x);
    ScaleUp(x[0], 0, Pow2(7 - c), Pow2(m), Number(x[1..]));
    Pow2Add(7 - c, m);
  }

  /** What the XOR of two distances does to each byte: zeros stay zero, equal leads cancel. */
  ghost predicate Cancels(v: seq<nat>, u: seq<nat>, x: seq<nat>) {
    && |v| == |u| == |x| && AllBelow(v, 256) && AllBelow(u, 256) && AllBelow(x, 256)
    && forall i :: 0 <= i < |v| ==> ByteCancels(v[i], u[i], x[i])
  }

  ghost predicate ByteCancels(v: nat, u: nat, x: nat)
    requires v < 256 && u < 256
  {
    && (v == 0 && u == 0 ==> x == 0)
    && (0 < v && 0 < u && ByteLead(v) == ByteLead(u) ==> x < Weight(ByteLead(v)))
  }

  lemma XorByteCancels(x: bv8, y: bv8, v: nat, u: nat, w: nat)
    requires v == x as int && u == y as int && w == (x ^ y) as int
    ensures ByteCancels(v, u, w)
  {
    ZeroBytes(x, y);
    if 0 < v && 0 < u && ByteLead(v) == ByteLead(u) {
      BytesCancel(x, y, v, u);
    }
  }

  lemma XorCancelsValues(d: NodeId, e: NodeId)
    requires |d| == |e|
    ensures Cancels(Values(d), Values(e), Values(Xor(d, e)))
  {
    var v, u, x := Values(d), Values(e), Values(Xor(d, e));
    forall i | 0 <= i < |d| ensures ByteCancels(v[i], u[i], x[i]) {
      XorByteCancels(d[i], e[i], v[i], u[i], x[i]);
    }
  }

  lemma CancelsTail(v: seq<nat>, u: seq<nat>, x: seq<nat>)
    requires Cancels(v, u, x) && v != []
    ensures Cancels(v[1..], u[1..], x[1..])
  {
    forall i | 0 <= i < |v| - 1 ensures ByteCancels(v[1..][i], u[1..][i], x[1..][i]) {
      assert ByteCancels(v[i + 1], u[i + 1], x[i + 1]);
    }
  }

  lemma HeadsCancel(v: seq<nat>, u: seq<nat>, x: seq<nat>)
    requires Cancels(v, u, x) && v != [] && v[0] != 0 && u[0] != 0 && Lead(v) == Lead(u)
    ensures Lead(v) < 8 && Number(x) < Pow2(8 * |v| - 1 - Lead(v))
  {
    assert ByteCancels(v[0], u[0], x[0]);
    SmallHead(x, ByteLead(v[0]));
  }

  lemma {:induction false} EqualLeadsCancel(v: seq<nat>, u: seq<nat>, x: seq<nat>)
    requires Cancels(v, u, x) && NonZero(v) && NonZero(u) && Lead(v) == Lead(u)
    ensures Lead(v) < 8 * |v| && Number(x) < Pow2(8 * |v| - 1 - Lead(v))
  {
    if v[0] != 0 && u[0] != 0 {
      HeadsCancel(v, u, x);
    } else {
      LeadTail(v, u);
      CancelsTail(v, u, x);
      EqualLeadsCancel(v[1..], u[1..], x[1..]);
      assert ByteCancels(v[0], u[0], x[0]);
      ZeroHead(x);
    }
  }

  lemma ZeroHead(x: seq<nat>)
    requires x != [] && x[0] == 0
    ensures Number(x) == Number(x[1..])
  {
    NumberFront(x);
  }

  lemma ZeroBytes(x: bv8, y: bv8)
    ensures x as int == 0 && y as int == 0 ==> (x ^ y) as int == 0
  {
    assert x as int == 0 ==> x == 0;
    assert y as int == 0 ==> y == 0;
  }

  lemma LeadTail(v: seq<nat>, u: seq<nat>)
    requires |v| == |u| && AllBelow(v, 256) && AllBelow(u, 256) && NonZero(v) && NonZero(u)
    requires Lead(v) == Lead(u) && (v[0] == 0 || u[0] == 0)
    ensures v[0] == 0 && u[0] == 0 && NonZero(v[1..]) && NonZero(u[1..]) && Lead(v[1..]) == Lead(u[1..])
  {
    if v[0] == 0 { NonZeroTail(v); }
    if u[0] == 0 { NonZeroTail(u); }
  }

  ghost predicate HasLead(v: seq<nat>, p: nat) {
    AllBelow(v, 256) && NonZero(v) && Lead(v) == p
  }

  ghost predicate BelowBit(x: seq<nat>, p: nat) {
    p < 8 * |x| && Number(x) < Pow2(8 * |x| - 1 - p)
  }

  lemma CancelledNumber(v: seq<nat>, u: seq<nat>, x: seq<nat>, p: nat)
    ensures Cancels(v, u, x) && HasLead(v, p) && HasLead(u, p) ==> BelowBit(x, p)
  {
    if Cancels(v, u, x) && HasLead(v, p) && HasLead(u, p) {
      EqualLeadsCancel(v, u, x);
    }
  }

  lemma XorOfEqualLeads(d: NodeId, e: NodeId, p: nat)
    requires |d| == |e|
    ensures HasLead(Values(d), p) && HasLead(Values(e), p) ==> BelowBit(Values(Xor(d, e)), p)
  {
    XorCancelsValues(d, e);
    CancelledNumber(Values(d), Values(e), Values(Xor(d, e)), p);
  }

  lemma BucketIsLead(our: NodeId, id: NodeId)
    requires |our| == |id| && our != id
    ensures BucketIndex(our, id) >= 24 && HasLead(Values(Xor(our, id)), BucketIndex(our, id) - 24)
  {
    var v := Values(Xor(our, id));
    DifferentMeansNonZero(our, id);
    assert v[0..] == v;
    IndexIsLead(v, 0);
  }

  lemma MatesFromLeads(our: NodeId, a: NodeId, b: NodeId, p: nat)
    requires |our| == |a| == |b|
    ensures HasLead(Values(Xor(our, a)), p) && HasLead(Values(Xor(our, b)), p) ==> BelowBit(Values(Xor(a, b)), p)
  {
    XorOfEqualLeads(Xor(our, a), Xor(our, b), p);
    XorCancels(our, a, b);
  }

  /** Two nodes of one bucket, p = index - 24, are closer to each other than 2^(bits-1-p). */
  lemma BucketMatesAreClose(our: NodeId, a: NodeId, b: NodeId, p: int)
    requires |our| == |a| == |b| && our != a && our != b && BucketIndex(our, a) == BucketIndex(our, b) == p + 24
    ensures 0 <= p < 8 * |our| && Distance(a, b) < Pow2(8 * |our| - 1 - p)
  {
    BucketIsLead(our, a);
    BucketIsLead(our, b);
    MatesFromLeads(our, a, b, p);
    assert BelowBit(Values(Xor(a, b)), p);
  }

  lemma XorCancels(c: NodeId, a: NodeId, b: NodeId)
    requires |a| == |b| == |c|
    ensures Xor(Xor(c, a), Xor(c, b)) == Xor(a, b)
  {
    forall i | 0 <= i < |a| ensures Xor(Xor(c, a), Xor(c, b))[i] == Xor(a, b)[i] {
      XorCancelsByte(c[i], a[i], b[i]);
    }
  }

  lemma XorCancelsByte(x: bv8, y: bv8, z: bv8)
    ensures (x ^ y) ^ (x ^ z) == y ^ z
  {
  }
}
