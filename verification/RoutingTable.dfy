/** The routing table's two indexes: a registry of nodes by id and the bucket lists (`addNode`,
    `removeNode`, `evictNode`, `splitBucket`, `mergeBucket`, the expiry calls,
    `validateRoutingTableIntegrity`).

    Registry and buckets hold node objects, and the expiry calls update one of the two only, so an id can
    come to have an old object in a bucket and a new one in the registry. The model therefore tells node
    objects apart: a handle is a node's place in the sequence of all nodes ever created. */
module RoutingTable {
  import opened Sequences
  import opened Kademlia
  import opened Closest

  type Handle = nat

  datatype Node = Node(id: NodeId, index: int)

  datatype Table = Table(nodes: seq<Node>, registry: map<NodeId, Handle>, buckets: map<int, seq<Handle>>)

  datatype Config = Config(maxBucketSize: nat, minBucketSize: nat, splitting: bool, merging: bool, nodeTimeoutMs: int)

  predicate ValidAddress(id: NodeId, ip: string, port: int) {
    |id| == 20 && '.' in ip && 0 < port <= 65535
  }

  function IndexOf(t: Table, h: Handle): int {
    if h < |t.nodes| then t.nodes[h].index else -1
  }

  predicate HasIndex(t: Table, h: Handle, b: int) {
    h < |t.nodes| && t.nodes[h].index == b
  }

  function Appended(buckets: map<int, seq<Handle>>, b: int, h: Handle): map<int, seq<Handle>> {
    if b >= 0 && b in buckets then buckets[b := buckets[b] + [h]] else buckets
  }

  function Added(t: Table, our: NodeId, id: NodeId): Table {
    if id in t.registry then t
    else
      var b, h := BucketIndex(our, id), |t.nodes|;
      Table(t.nodes + [Node(id, b)], t.registry[id := h], Appended(t.buckets, b, h))
  }

  function TakenOut(buckets: map<int, seq<Handle>>, b: int, h: Handle): map<int, seq<Handle>> {
    if b >= 0 && b in buckets then buckets[b := Drop(buckets[b], {h})] else buckets
  }

  function Removed(t: Table, id: NodeId): Table {
    if id !in t.registry then t
    else
      var h := t.registry[id];
      t.(registry := t.registry - {id}, buckets := TakenOut(t.buckets, IndexOf(t, h), h))
  }

  predicate SplitDue(c: Config, t: Table, b: int) {
    b in t.buckets && |t.buckets[b]| >= c.maxBucketSize && c.splitting
  }

  predicate MergeDue(c: Config, t: Table, b: int) {
    b in t.buckets && |t.buckets[b]| < c.minBucketSize && c.merging && b - 1 in t.buckets
  }

  function WithIndex(t: Table, list: seq<Handle>, b: int): seq<Handle> {
    if list == [] then []
    else
      var last := list[|list| - 1];
      WithIndex(t, list[..|list| - 1], b) + (if HasIndex(t, last, b) then [last] else [])
  }

  function WithoutIndex(t: Table, list: seq<Handle>, b: int): seq<Handle> {
    if list == [] then []
    else
      var last := list[|list| - 1];
      WithoutIndex(t, list[..|list| - 1], b) + (if HasIndex(t, last, b) then [] else [last])
  }

  /** A fresh bucket b+1 replaces whatever was there and takes the nodes of b whose index is b+1. */
  function Split(c: Config, t: Table, b: int): Table {
    if !SplitDue(c, t, b) then t
    else
      var list := t.buckets[b];
      t.(buckets := t.buckets[b := WithoutIndex(t, list, b + 1)][b + 1 := WithIndex(t, list, b + 1)])
  }

  function Reindexed(nodes: seq<Node>, list: seq<Handle>, b: int): seq<Node> {
    seq(|nodes|, h requires 0 <= h < |nodes| => if h in list then nodes[h].(index := b) else nodes[h])
  }

  /** The nodes of b move to the end of b-1 and take its index; bucket b disappears. */
  function Merged(c: Config, t: Table, b: int): Table {
    if !MergeDue(c, t, b) then t
    else
      var list := t.buckets[b];
      t.(nodes := Reindexed(t.nodes, list, b - 1), buckets := t.buckets[b - 1 := t.buckets[b - 1] + list] - {b})
  }

  /** `cleanupExpiredNodes`, which the monitor thread calls: expired nodes leave the bucket lists only. */
  function CleanedUp(t: Table, gone: set<Handle>): Table {
    t.(buckets := map b | b in t.buckets :: Drop(t.buckets[b], gone))
  }

  /** `clearExpiredNodes` and `optimizeRoutingTable`: expired or bad nodes leave the registry only. */
  function Forgotten(t: Table, gone: set<Handle>): Table {
    t.(registry := map id | id in t.registry && t.registry[id] !in gone :: t.registry[id])
  }

  const INITIAL: map<int, seq<Handle>> := map b | 0 <= b < 8 :: []

  const EMPTY := Table([], map[], INITIAL)

  function Cleared(t: Table): Table {
    Table(t.nodes, map[], INITIAL)
  }

  // ----- Integrity -----

  /** The registry knows nodes by their own id; bucket lists repeat nothing and hold nodes under their own
      index. */
  ghost predicate Sound(t: Table) {
    && (forall id :: id in t.registry ==> Names(t, id, t.registry[id]))
    && (forall b :: b in t.buckets ==> 0 <= b && SoundBucket(t, b))
  }

  predicate Names(t: Table, id: NodeId, h: Handle) {
    h < |t.nodes| && t.nodes[h].id == id
  }

  ghost predicate SoundBucket(t: Table, b: int)
    requires b in t.buckets
  {
    NoRepeats(t.buckets[b]) && forall h :: h in t.buckets[b] ==> HasIndex(t, h, b)
  }

  /** Every registered node whose bucket exists is in it: what `validateRoutingTableIntegrity` checks. */
  ghost predicate Complete(t: Table) {
    forall id :: id in t.registry && Placed(t, t.registry[id]) ==> t.registry[id] in t.buckets[IndexOf(t, t.registry[id])]
  }

  predicate Placed(t: Table, h: Handle) {
    IndexOf(t, h) >= 0 && IndexOf(t, h) in t.buckets
  }

  /** Every listed node is the one registered under its id. */
  ghost predicate Registered(t: Table) {
    forall b, h :: b in t.buckets && h in t.buckets[b] ==> Current(t, h)
  }

  predicate Current(t: Table, h: Handle) {
    h < |t.nodes| && t.nodes[h].id in t.registry && t.registry[t.nodes[h].id] == h
  }

  ghost predicate Listed(t: Table, h: Handle) {
    exists b :: b in t.buckets && h in t.buckets[b]
  }

  lemma AddKeepsIntegrity(t: Table, our: NodeId, id: NodeId)
    requires Sound(t)
    ensures Sound(Added(t, our, id))
    ensures Complete(t) ==> Complete(Added(t, our, id))
    ensures Registered(t) ==> Registered(Added(t, our, id))
  {
    if id !in t.registry {
      var t' := Added(t, our, id);
      forall b | b in t'.buckets ensures 0 <= b && SoundBucket(t', b) {
        AddKeepsBucket(t, our, id, b);
      }
      forall x | x in t.registry ensures Names(t', x, t.registry[x]) {
        assert Names(t, x, t.registry[x]);
      }
      if Registered(t) {
        AddKeepsRegistered(t, our, id);
      }
    }
  }

  lemma AddKeepsBucket(t: Table, our: NodeId, id: NodeId, b: int)
    requires Sound(t) && id !in t.registry && b in t.buckets
    ensures SoundBucket(Added(t, our, id), b)
  {
    var t', h := Added(t, our, id), |t.nodes|;
    assert SoundBucket(t, b);
    assert forall x :: x in t.buckets[b] ==> HasIndex(t, x, b) && HasIndex(t', x, b) && x != h;
    if b == BucketIndex(our, id) {
      AppendKeepsNoRepeats(t.buckets[b], [h]);
      assert t'.buckets[b] == t.buckets[b] + [h];
    }
  }

  lemma AddKeepsRegistered(t: Table, our: NodeId, id: NodeId)
    requires Sound(t) && Registered(t) && id !in t.registry
    ensures Registered(Added(t, our, id))
  {
    var t' := Added(t, our, id);
    forall b, h | b in t'.buckets && h in t'.buckets[b] ensures Current(t', h) {
      if h != |t.nodes| {
        assert h in t.buckets[b] && Current(t, h);
      }
    }
  }

  lemma RemoveKeepsIntegrity(t: Table, id: NodeId)
    requires Sound(t)
    ensures Sound(Removed(t, id))
    ensures Complete(t) ==> Complete(Removed(t, id))
    ensures Registered(t) ==> Registered(Removed(t, id))
  {
    if id in t.registry {
      var t', h := Removed(t, id), t.registry[id];
      assert Names(t, id, h);
      forall b | b in t'.buckets ensures 0 <= b && SoundBucket(t', b) {
        assert SoundBucket(t, b);
        DropKeepsNoRepeats(t.buckets[b], {h});
      }
      forall x | x in t'.registry ensures Names(t', x, t'.registry[x]) && t'.registry[x] != h {
        assert Names(t, x, t.registry[x]);
      }
      if Registered(t) {
        RemoveKeepsRegistered(t, id);
      }
    }
  }

  lemma RemoveKeepsRegistered(t: Table, id: NodeId)
    requires Sound(t) && Registered(t) && id in t.registry
    ensures Registered(Removed(t, id))
  {
    var t', h := Removed(t, id), t.registry[id];
    forall b, x | b in t'.buckets && x in t'.buckets[b] ensures Current(t', x) {
      assert x in t.buckets[b] && Current(t, x) && SoundBucket(t, b);
      assert Names(t, id, h);
      assert x != h;
    }
  }

  lemma MergeKeepsIntegrity(c: Config, t: Table, b: int)
    requires Sound(t)
    ensures Sound(Merged(c, t, b))
    ensures Complete(t) ==> Complete(Merged(c, t, b))
    ensures Registered(t) ==> Registered(Merged(c, t, b))
  {
    if MergeDue(c, t, b) {
      var t' := Merged(c, t, b);
      assert SoundBucket(t, b) && SoundBucket(t, b - 1);
      AppendKeepsNoRepeats(t.buckets[b - 1], t.buckets[b]);
      forall k | k in t'.buckets ensures 0 <= k && SoundBucket(t', k) {
        assert SoundBucket(t, k);
      }
      forall x | x in t'.registry ensures Names(t', x, t'.registry[x]) {
        assert Names(t, x, t.registry[x]);
      }
      if Complete(t) {
        MergeKeepsComplete(c, t, b);
      }
      if Registered(t) {
        MergeKeepsRegistered(c, t, b);
      }
    }
  }

  lemma MergeKeepsComplete(c: Config, t: Table, b: int)
    requires Sound(t) && Complete(t) && MergeDue(c, t, b)
    ensures Complete(Merged(c, t, b))
  {
    var t' := Merged(c, t, b);
    forall x | x in t'.registry && Placed(t', t'.registry[x])
      ensures t'.registry[x] in t'.buckets[IndexOf(t', t'.registry[x])]
    {
      var h := t.registry[x];
      assert Names(t, x, h);
      if h !in t.buckets[b] {
        assert IndexOf(t', h) == IndexOf(t, h) && Placed(t, h);
      }
    }
  }

  lemma MergeKeepsRegistered(c: Config, t: Table, b: int)
    requires Sound(t) && Registered(t) && MergeDue(c, t, b)
    ensures Registered(Merged(c, t, b))
  {
    var t' := Merged(c, t, b);
    forall k, h | k in t'.buckets && h in t'.buckets[k] ensures Current(t', h) {
      if k == b - 1 && h in t.buckets[b] {
        assert Current(t, h);
      } else {
        assert h in t.buckets[k] && Current(t, h);
      }
    }
  }

  lemma {:induction false} IndexFilters(t: Table, list: seq<Handle>, b: int)
    ensures (forall h :: h in list ==> !HasIndex(t, h, b)) ==>
      WithIndex(t, list, b) == [] && WithoutIndex(t, list, b) == list
  {
    if list != [] {
      IndexFilters(t, list[..|list| - 1], b);
      assert list == list[..|list| - 1] + [list[|list| - 1]];
    }
  }

  /** From a sound table a split that is due empties bucket b+1 and changes nothing else. */
  lemma SplitEffect(c: Config, t: Table, b: int)
    requires Sound(t) && SplitDue(c, t, b)
    ensures Split(c, t, b) == t.(buckets := t.buckets[b + 1 := []])
  {
    assert SoundBucket(t, b);
    IndexFilters(t, t.buckets[b], b + 1);
    assert t.buckets[b := t.buckets[b]] == t.buckets;
  }

  /** Splitting keeps lists sound and registered, and keeps integrity exactly when no registered node has
      the new index. */
  lemma SplitIntegrity(c: Config, t: Table, b: int)
    requires Sound(t)
    ensures Sound(Split(c, t, b))
    ensures Registered(t) ==> Registered(Split(c, t, b))
    ensures Complete(t) && SplitDue(c, t, b) ==>
      (Complete(Split(c, t, b)) <==> forall id :: id in t.registry ==> !HasIndex(t, t.registry[id], b + 1))
  {
    if SplitDue(c, t, b) {
      SplitEffect(c, t, b);
      var t' := Split(c, t, b);
      forall k | k in t'.buckets ensures 0 <= k && SoundBucket(t', k) {
        assert k != b + 1 ==> SoundBucket(t, k);
      }
      forall x | x in t'.registry ensures Names(t', x, t'.registry[x]) {
        assert Names(t, x, t.registry[x]);
      }
      if Registered(t) {
        forall k, h | k in t'.buckets && h in t'.buckets[k] ensures Current(t', h) {
          assert h in t.buckets[k] && Current(t, h);
        }
      }
      if Complete(t) {
        SplitComplete(t, b, t');
      }
    }
  }

  lemma SplitComplete(t: Table, b: int, t': Table)
    requires Sound(t) && Complete(t) && b in t.buckets && t' == t.(buckets := t.buckets[b + 1 := []])
    ensures Complete(t') <==> forall id :: id in t.registry ==> !HasIndex(t, t.registry[id], b + 1)
  {
    assert 0 <= b;
    if id :| id in t.registry && HasIndex(t, t.registry[id], b + 1) {
      assert Placed(t', t'.registry[id]) && t'.buckets[b + 1] == [];
    } else {
      forall x | x in t'.registry && Placed(t', t'.registry[x])
        ensures t'.registry[x] in t'.buckets[IndexOf(t', t'.registry[x])]
      {
        assert Names(t, x, t.registry[x]);
        assert Placed(t, t.registry[x]);
      }
    }
  }

  /** Expiry from the lists keeps them sound and registered, and keeps integrity exactly when no expired
      node is both listed and registered. */
  lemma CleanupIntegrity(t: Table, gone: set<Handle>)
    requires Sound(t)
    ensures Sound(CleanedUp(t, gone))
    ensures Registered(t) ==> Registered(CleanedUp(t, gone))
    ensures Complete(t) ==>
      (Complete(CleanedUp(t, gone)) <==> forall h :: h in gone ==> !(Listed(t, h) && Current(t, h)))
  {
    var t' := CleanedUp(t, gone);
    forall b | b in t'.buckets ensures 0 <= b && SoundBucket(t', b) {
      assert SoundBucket(t, b);
      DropKeepsNoRepeats(t.buckets[b], gone);
    }
    forall x | x in t'.registry ensures Names(t', x, t'.registry[x]) {
      assert Names(t, x, t.registry[x]);
    }
    forall b, h | Registered(t) && b in t'.buckets && h in t'.buckets[b] ensures Current(t', h) {
      assert h in t.buckets[b] && Current(t, h);
    }
    if Complete(t) {
      CleanupComplete(t, gone);
    }
  }

  lemma CleanupComplete(t: Table, gone: set<Handle>)
    requires Sound(t) && Complete(t)
    ensures Complete(CleanedUp(t, gone)) <==> forall h :: h in gone ==> !(Listed(t, h) && Current(t, h))
  {
    var t' := CleanedUp(t, gone);
    if h :| h in gone && Listed(t, h) && Current(t, h) {
      var b :| b in t.buckets && h in t.buckets[b];
      assert SoundBucket(t, b);
      assert Placed(t', t'.registry[t.nodes[h].id]) && h !in t'.buckets[b];
    } else {
      forall x | x in t'.registry && Placed(t', t'.registry[x])
        ensures t'.registry[x] in t'.buckets[IndexOf(t', t'.registry[x])]
      {
        var h := t.registry[x];
        assert Names(t, x, h) && Placed(t, h) && h in t.buckets[IndexOf(t, h)];
        assert Listed(t, h) && Current(t, h);
      }
    }
  }

  /** Forgetting from the registry keeps lists sound and every placed node listed, and keeps the lists
      registered exactly when no forgotten node is both listed and registered. */
  lemma ForgetIntegrity(t: Table, gone: set<Handle>)
    requires Sound(t)
    ensures Sound(Forgotten(t, gone))
    ensures Complete(t) ==> Complete(Forgotten(t, gone))
    ensures Registered(t) ==>
      (Registered(Forgotten(t, gone)) <==> forall h :: h in gone ==> !(Listed(t, h) && Current(t, h)))
  {
    var t' := Forgotten(t, gone);
    forall b | b in t'.buckets ensures 0 <= b && SoundBucket(t', b) {
      assert SoundBucket(t, b);
    }
    forall x | x in t'.registry ensures Names(t', x, t'.registry[x]) {
      assert Names(t, x, t.registry[x]);
    }
    if Complete(t) {
      forall x | x in t'.registry && Placed(t', t'.registry[x])
        ensures t'.registry[x] in t'.buckets[IndexOf(t', t'.registry[x])]
      {
        assert x in t.registry && Placed(t, t.registry[x]);
      }
    }
    if Registered(t) {
      ForgetRegistered(t, gone);
    }
  }

  lemma ForgetRegistered(t: Table, gone: set<Handle>)
    requires Registered(t)
    ensures Registered(Forgotten(t, gone)) <==> forall h :: h in gone ==> !(Listed(t, h) && Current(t, h))
  {
    var t' := Forgotten(t, gone);
    if h :| h in gone && Listed(t, h) && Current(t, h) {
      var b :| b in t.buckets && h in t.buckets[b];
      assert b in t'.buckets && h in t'.buckets[b] && !Current(t', h);
    } else {
      forall b, h | b in t'.buckets && h in t'.buckets[b] ensures Current(t', h) {
        assert Current(t, h) && Listed(t, h);
      }
    }
  }

  // ----- What each operation does, exactly -----

  /** From a sound table a split is done exactly when it is due, and then empties bucket b+1. */
  lemma SplitExactly(c: Config, t: Table, b: int)
    requires Sound(t)
    ensures Split(c, t, b) ==
      if b in t.buckets && |t.buckets[b]| >= c.maxBucketSize && c.splitting then t.(buckets := t.buckets[b + 1 := []])
      else t
  {
    if SplitDue(c, t, b) {
      SplitEffect(c, t, b);
    }
  }

  /** A merge is done exactly when it is due: bucket b goes, its nodes stand in order at the end of b-1 under
      that index, and nothing else changes. */
  lemma MergeExactly(c: Config, t: Table, b: int)
    requires Sound(t)
    ensures
      var t' := Merged(c, t, b);
      if b in t.buckets && b - 1 in t.buckets && |t.buckets[b]| < c.minBucketSize && c.merging then
        && t'.registry == t.registry && t'.buckets.Keys == t.buckets.Keys - {b}
        && t'.buckets[b - 1] == t.buckets[b - 1] + t.buckets[b]
        && (forall k :: k in t'.buckets && k != b - 1 ==> t'.buckets[k] == t.buckets[k])
        && |t'.nodes| == |t.nodes|
        && (forall h :: 0 <= h < |t.nodes| ==>
              t'.nodes[h] == if h in t.buckets[b] then Node(t.nodes[h].id, b - 1) else t.nodes[h])
      else t' == t
  {
  }

  /** Expiry from the lists: each list loses exactly the expired nodes, the rest keeping its order. */
  lemma CleanupExactly(t: Table, gone: set<Handle>)
    ensures
      var t' := CleanedUp(t, gone);
      && t'.registry == t.registry && t'.nodes == t.nodes && t'.buckets.Keys == t.buckets.Keys
      && forall b, h :: b in t.buckets ==> (h in t'.buckets[b] <==> h in t.buckets[b] && h !in gone)
  {
  }
}
