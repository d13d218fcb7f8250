/** The routing table as the program keeps it: shared node objects, reachable from the registry and from
    the bucket lists, whose fields change in place. */
module RoutingTableManager {
  import opened Machine
  import opened Sequences
  import opened Kademlia
  import opened RoutingTable

  datatype NodeStatus = UNKNOWN | GOOD | BAD | QUESTIONABLE | EVICTED

  class DHTNode {
    const id: NodeId
    ghost const serial: Handle
    var bucketIndex: int
    var lastSeen: int
    var status: NodeStatus

    constructor (id: NodeId, ghost serial: Handle, bucketIndex: int, now: int)
      ensures this.id == id && this.serial == serial && this.bucketIndex == bucketIndex
      ensures lastSeen == now && status == UNKNOWN
    {
      this.id, this.serial, this.bucketIndex, lastSeen, status := id, serial, bucketIndex, now, UNKNOWN;
    }
  }

  /** Why the expiry calls drop a node: not seen for the timeout, or marked bad. */
  datatype Reason = Expired(now: int) | Bad

  predicate Leaves(n: DHTNode, why: Reason, timeoutMs: int)
    reads n
  {
    match why
    case Expired(now) => now - n.lastSeen > Millis(timeoutMs)
    case Bad => n.status == BAD
  }

  ghost function Serials(nodes: seq<DHTNode>): (hs: seq<Handle>)
    ensures |hs| == |nodes|
  {
    seq(|nodes|, i requires 0 <= i < |nodes| => nodes[i].serial)
  }

  ghost function SerialLists(buckets: map<int, seq<DHTNode>>): map<int, seq<Handle>> {
    map b | b in buckets :: Serials(buckets[b])
  }

  ghost function HandleMap(registry: map<NodeId, DHTNode>): map<NodeId, Handle> {
    map id | id in registry :: registry[id].serial
  }

  lemma HandlesLeft(registry: map<NodeId, DHTNode>, left: map<NodeId, DHTNode>, gone: set<Handle>)
    requires forall id :: id in left <==> id in registry && registry[id].serial !in gone
    requires forall id :: id in left ==> left[id] == registry[id]
    ensures HandleMap(left) ==
      map id | id in HandleMap(registry) && HandleMap(registry)[id] !in gone :: HandleMap(registry)[id]
  {
  }

  lemma HandlesAdd(registry: map<NodeId, DHTNode>, id: NodeId, n: DHTNode)
    ensures HandleMap(registry[id := n]) == HandleMap(registry)[id := n.serial]
  {
  }

  lemma ListsLeft(buckets: map<int, seq<DHTNode>>, left: map<int, seq<DHTNode>>, gone: set<Handle>)
    requires left.Keys == buckets.Keys
    requires forall b :: b in buckets ==> Serials(left[b]) == Drop(Serials(buckets[b]), gone)
    ensures SerialLists(left) == map b | b in SerialLists(buckets) :: Drop(SerialLists(buckets)[b], gone)
  {
    var lists := SerialLists(buckets);
    var rest := map b | b in lists :: Drop(lists[b], gone);
    assert SerialLists(left).Keys == rest.Keys;
    forall b | b in rest ensures SerialLists(left)[b] == rest[b] {
      assert b in buckets && lists[b] == Serials(buckets[b]);
    }
  }

  lemma SerialListsUpdate(buckets: map<int, seq<DHTNode>>, b: int, nodes: seq<DHTNode>)
    ensures SerialLists(buckets[b := nodes]) == SerialLists(buckets)[b := Serials(nodes)]
    ensures SerialLists(buckets - {b}) == SerialLists(buckets) - {b}
  {
  }

  lemma SerialsConcat(a: seq<DHTNode>, b: seq<DHTNode>)
    ensures Serials(a + b) == Serials(a) + Serials(b)
  {
  }

  /** `initializeRoutingBuckets`. */
  method InitialBuckets() returns (buckets: map<int, seq<DHTNode>>)
    ensures forall b :: b in buckets <==> 0 <= b < 8
    ensures forall b :: b in buckets ==> buckets[b] == []
  {
    buckets := map[];
    for i := 0 to 8
      invariant forall b :: b in buckets <==> 0 <= b < i
      invariant forall b :: b in buckets ==> buckets[b] == []
    {
      buckets := buckets[i := []];
    }
  }

  lemma InitialLists(buckets: map<int, seq<DHTNode>>)
    requires forall b :: b in buckets <==> 0 <= b < 8
    requires forall b :: b in buckets ==> buckets[b] == []
    ensures SerialLists(buckets) == INITIAL
  {
    assert SerialLists(buckets).Keys == INITIAL.Keys;
    assert forall b :: b in buckets ==> SerialLists(buckets)[b] == INITIAL[b];
  }

  /** The node stands at the end of the bucket of its index, if there is one, and no list changes else. */
  ghost predicate ListedLast(was: map<int, seq<DHTNode>>, buckets: map<int, seq<DHTNode>>, n: DHTNode)
    reads n
  {
    && buckets.Keys == was.Keys
    && forall b :: b in buckets ==>
         buckets[b] == if b == n.bucketIndex && b >= 0 then was[b] + [n] else was[b]
  }

  /** The node is gone from the bucket of its index, and no list changes else. */
  ghost predicate Unlisted(was: map<int, seq<DHTNode>>, buckets: map<int, seq<DHTNode>>, n: DHTNode)
    reads n
  {
    && buckets.Keys == was.Keys
    && forall b :: b in buckets ==>
         buckets[b] == if b == n.bucketIndex && b >= 0 then Drop(was[b], {n}) else was[b]
  }

  /** The inner loop of `cleanupExpiredNodes`. */
  method Fresh(list: seq<DHTNode>, now: int, timeoutMs: int, ghost gone: set<Handle>) returns (kept: seq<DHTNode>)
    requires forall n :: n in list ==> (n.serial in gone <==> Leaves(n, Expired(now), timeoutMs))
    ensures Serials(kept) == Drop(Serials(list), gone)
    ensures forall n :: n in kept ==> n in list
  {
    kept := [];
    for i := 0 to |list|
      invariant Serials(kept) == Drop(Serials(list[..i]), gone)
      invariant forall n :: n in kept ==> n in list
    {
      var n := list[i];
      assert n in list;
      SerialsStep(list, i);
      SerialsConcat(kept, [n]);
      if !Leaves(n, Expired(now), timeoutMs) {
        kept := kept + [n];
      }
    }
    assert list[..|list|] == list;
  }

  /** Its outer loop. */
  method FreshLists(buckets: map<int, seq<DHTNode>>, now: int, timeoutMs: int, ghost gone: set<Handle>)
    returns (left: map<int, seq<DHTNode>>)
    requires forall b, n :: b in buckets && n in buckets[b] ==> (n.serial in gone <==> Leaves(n, Expired(now), timeoutMs))
    ensures left.Keys == buckets.Keys
    ensures forall b, n :: b in left && n in left[b] ==> n in buckets[b]
    ensures forall b :: b in buckets ==> Serials(left[b]) == Drop(Serials(buckets[b]), gone)
  {
    left := buckets;
    var todo := buckets.Keys;
    while exists b :: b in todo
      invariant todo <= buckets.Keys && left.Keys == buckets.Keys
      invariant forall b :: b in todo ==> left[b] == buckets[b]
      invariant forall b :: b in buckets.Keys - todo ==> Serials(left[b]) == Drop(Serials(buckets[b]), gone)
      invariant forall b, n :: b in left && n in left[b] ==> n in buckets[b]
      decreases todo
    {
      var b :| b in todo;
      var kept := Fresh(buckets[b], now, timeoutMs, gone);
      left := left[b := kept];
      todo := todo - {b};
    }
  }

  /** The loop of `clearExpiredNodes` and `optimizeRoutingTable`. */
  method Remaining(registry: map<NodeId, DHTNode>, why: Reason, timeoutMs: int)
    returns (left: map<NodeId, DHTNode>, cleared: nat)
    ensures forall id :: id in left <==> id in registry && !Leaves(registry[id], why, timeoutMs)
    ensures forall id :: id in left ==> left[id] == registry[id]
    ensures cleared == |registry| - |left|
  {
    left, cleared := registry, 0;
    var todo := registry.Keys;
    while todo != {}
      invariant todo <= registry.Keys
      invariant forall id :: id in left <==> id in registry && (id in todo || !Leaves(registry[id], why, timeoutMs))
      invariant forall id :: id in left ==> left[id] == registry[id]
      invariant cleared + |left| == |registry|
      decreases todo
    {
      var id :| id in todo;
      if Leaves(registry[id], why, timeoutMs) {
        OneLess(left, id);
        left := left - {id};
        cleared := cleared + 1;
      }
      todo := todo - {id};
    }
  }

  lemma OneLess(m: map<NodeId, DHTNode>, id: NodeId)
    requires id in m
    ensures |m - {id}| == |m| - 1
  {
    assert (m - {id}).Keys == m.Keys - {id};
    assert |m - {id}| == |(m - {id}).Keys| && |m| == |m.Keys|;
  }

  class Manager {
    const our: NodeId
    const config: Config
    var registry: map<NodeId, DHTNode>
    var buckets: map<int, seq<DHTNode>>
    /** Every node object ever made, in order, and the table's view of each. */
    ghost var created: seq<DHTNode>
    ghost var nodes: seq<Node>

    ghost predicate Known(n: DHTNode)
      reads `created
    {
      n.serial < |created| && created[n.serial] == n
    }

    ghost predicate AllKnown(nodes: seq<DHTNode>)
      reads `created
    {
      forall n :: n in nodes ==> Known(n)
    }

    ghost predicate Linked()
      reads this, Nodes()
    {
      Mirrored() && RegistryKnown(registry) && ListsKnown(buckets)
    }

    ghost predicate Mirrored()
      reads `created, `nodes, Nodes()
    {
      && |nodes| == |created|
      && (forall h :: 0 <= h < |created| ==> created[h] in Nodes() && created[h].serial == h)
      && (forall h :: 0 <= h < |created| ==> nodes[h] == Node(created[h].id, created[h].bucketIndex))
    }

    ghost predicate RegistryKnown(registry: map<NodeId, DHTNode>)
      reads `created
    {
      forall id :: id in registry ==> Known(registry[id]) && registry[id].id == id
    }

    ghost predicate ListsKnown(buckets: map<int, seq<DHTNode>>)
      reads `created
    {
      forall b :: b in buckets ==> AllKnown(buckets[b])
    }

    ghost function Nodes(): set<DHTNode>
      reads `created
    {
      set n | n in created
    }

    ghost function Handles(): map<NodeId, Handle>
      reads `registry
    {
      HandleMap(registry)
    }

    ghost function Model(): Table
      reads this
    {
      Table(nodes, Handles(), SerialLists(buckets))
    }

    /** The nodes not seen for the timeout, or those marked bad. */
    ghost function Leaving(why: Reason): set<Handle>
      reads `created, Nodes()
    {
      match why
      case Expired(now) =>
        set h | 0 <= h < |created| && created[h] in Nodes() && created[h].lastSeen < now - Millis(config.nodeTimeoutMs)
      case Bad => set h | 0 <= h < |created| && created[h] in Nodes() && created[h].status == BAD
    }

    ghost predicate Valid()
      reads this, Nodes()
    {
      Linked() && Sound(Model())
    }

    constructor (our: NodeId, config: Config)
      ensures Valid() && Model() == EMPTY && this.our == our && this.config == config
    {
      this.our, this.config := our, config;
      registry := map[];
      var initial := InitialBuckets();
      buckets := initial;
      created, nodes := [], [];
      new;
      InitialLists(buckets);
    }

    /** `clearRoutingTable`. */
    method ClearRoutingTable()
      requires Valid()
      modifies this
      ensures Valid() && Model() == Cleared(old(Model()))
      ensures registry == map[] && forall b :: b in buckets <==> 0 <= b < 8
      ensures forall b :: b in buckets ==> buckets[b] == []
    {
      registry := map[];
      buckets := InitialBuckets();
      InitialLists(buckets);
    }

    method AddNode(id: NodeId, ip: string, port: int, now: int) returns (added: bool)
      requires Valid()
      modifies this
      ensures Valid() && forall x :: x in old(registry) ==> x in registry && registry[x] == old(registry)[x]
      ensures added == (ValidAddress(id, ip, port) && id !in old(registry))
      ensures Model() == if added then Added(old(Model()), our, id) else old(Model())
      ensures !added ==> registry == old(registry) && buckets == old(buckets)
      ensures added ==> registry.Keys == old(registry).Keys + {id} && Entered(registry[id], id, now)
      ensures added ==> ListedLast(old(buckets), buckets, registry[id])
    {
      if !ValidAddress(id, ip, port) || id in registry {
        return false;
      }
      ghost var t := Model();
      Register(id, now);
      AddKeepsIntegrity(t, our, id);
      return true;
    }

    /** A new node has its own id, the index of its distance to us, and was seen just now. */
    ghost predicate Entered(n: DHTNode, id: NodeId, now: int)
      reads n
    {
      n.id == id && n.bucketIndex == BucketIndex(our, id) && n.lastSeen == now && n.status == UNKNOWN
    }

    method Register(id: NodeId, now: int)
      requires Linked() && id !in registry
      modifies this
      ensures registry.Keys == old(registry).Keys + {id} && Entered(registry[id], id, now)
      ensures ListedLast(old(buckets), buckets, registry[id])
      ensures Linked() && forall x :: x in old(registry) ==> x in registry && registry[x] == old(registry)[x]
      ensures Model() == Added(old(Model()), our, id)
    {
      var b := CalculateBucketIndex(our, id);
      var node := Enter(id, b, now);
      Place(node);
    }

    method Place(node: DHTNode)
      requires Linked() && Known(node)
      modifies `buckets
      ensures Linked() && SerialLists(buckets) == Appended(SerialLists(old(buckets)), node.bucketIndex, node.serial)
      ensures ListedLast(old(buckets), buckets, node)
    {
      if node.bucketIndex >= 0 && node.bucketIndex in buckets {
        PutInBucket(node, node.bucketIndex);
      }
    }

    method Enter(id: NodeId, b: int, now: int) returns (node: DHTNode)
      requires Linked() && id !in registry
      modifies `registry, `created, `nodes
      ensures Linked() && registry == old(registry)[id := node] && Known(node) && node.serial == |old(nodes)|
      ensures node.id == id && node.bucketIndex == b && node.lastSeen == now && node.status == UNKNOWN
      ensures nodes == old(nodes) + [Node(id, b)]
      ensures Handles() == old(Handles())[id := node.serial]
    {
      ghost var h := |created|;
      node := new DHTNode(id, h, b, now);
      HandlesAdd(registry, id, node);
      registry := registry[id := node];
      created, nodes := created + [node], nodes + [Node(id, b)];
      forall k | k in buckets ensures AllKnown(buckets[k]) {
        assert forall n :: n in buckets[k] ==> old(Known(n));
      }
    }

    method PutInBucket(node: DHTNode, b: int)
      requires Linked() && b in buckets && Known(node)
      modifies `buckets
      ensures Linked() && SerialLists(buckets) == SerialLists(old(buckets))[b := Serials(old(buckets)[b]) + [node.serial]]
      ensures buckets == old(buckets)[b := old(buckets)[b] + [node]]
    {
      SerialsConcat(buckets[b], [node]);
      assert Serials([node]) == [node.serial];
      SerialListsUpdate(buckets, b, buckets[b] + [node]);
      assert AllKnown(buckets[b]);
      buckets := buckets[b := buckets[b] + [node]];
    }

    method RemoveNode(id: NodeId) returns (removed: bool)
      requires Valid()
      modifies this
      ensures Valid() && removed == (id in old(registry)) && registry == old(registry) - {id}
      ensures Model() == Removed(old(Model()), id)
      ensures removed ==> Unlisted(old(buckets), buckets, old(registry)[id])
      ensures !removed ==> buckets == old(buckets)
    {
      if id !in registry {
        return false;
      }
      ghost var t := Model();
      Unlink(id);
      RemoveKeepsIntegrity(t, id);
      return true;
    }

    /** Takes a registered node out of its bucket and out of the registry. */
    method Unlink(id: NodeId)
      requires Linked() && id in registry
      modifies `registry, `buckets
      ensures Linked() && registry == old(registry) - {id}
      ensures Model() == Removed(old(Model()), id)
      ensures Unlisted(old(buckets), buckets, old(registry)[id])
    {
      ghost var t := Model();
      var node := registry[id];
      TakeFromBucket(node);
      registry := registry - {id};
      assert Handles() == t.registry - {id};
      assert IndexOf(t, node.serial) == node.bucketIndex;
    }

    method TakeFromBucket(node: DHTNode)
      requires Linked() && Known(node)
      modifies `buckets
      ensures Linked() && SerialLists(buckets) == TakenOut(SerialLists(old(buckets)), node.bucketIndex, node.serial)
      ensures Unlisted(old(buckets), buckets, node)
    {
      var b := node.bucketIndex;
      if b >= 0 && b in buckets {
        assert AllKnown(buckets[b]);
        DropSerials(created, buckets[b], node);
        SerialListsUpdate(buckets, b, Drop(buckets[b], {node}));
        buckets := buckets[b := Drop(buckets[b], {node})];
      }
    }

    /** `forceNodeEviction`: the node object stays with whoever holds it, marked evicted. */
    method ForceNodeEviction(id: NodeId) returns (evicted: bool)
      requires Valid()
      modifies this, Nodes()
      ensures Valid() && evicted == (id in old(registry)) && registry == old(registry) - {id}
      ensures evicted ==> old(registry)[id].status == EVICTED
      ensures Model() == Removed(old(Model()), id)
      ensures evicted ==> Unlisted(old(buckets), buckets, old(registry)[id])
      ensures !evicted ==> buckets == old(buckets)
    {
      if id !in registry {
        return false;
      }
      var node := registry[id];
      ghost var t := Model();
      node.status := EVICTED;
      assert Model() == t;
      Unlink(id);
      RemoveKeepsIntegrity(t, id);
      return true;
    }

    /** `updateNode`; `judged` is the status its quality score earns. */
    method UpdateNode(id: NodeId, now: int, judged: NodeStatus) returns (found: bool)
      requires Valid()
      modifies Nodes()`lastSeen, Nodes()`status
      ensures Valid() && Model() == old(Model()) && found == (id in registry)
      ensures found ==> registry[id].lastSeen == now && registry[id].status == judged
    {
      if id !in registry {
        return false;
      }
      registry[id].lastSeen := now;
      registry[id].status := judged;
      assert Model() == old(Model());
      return true;
    }

    method UpdateNodeStatus(id: NodeId, status: NodeStatus) returns (found: bool)
      requires Valid()
      modifies Nodes()`status
      ensures Valid() && Model() == old(Model()) && found == (id in registry)
      ensures found ==> registry[id].status == status
    {
      if id !in registry {
        return false;
      }
      registry[id].status := status;
      assert Model() == old(Model());
      return true;
    }

    /** `cleanupExpiredNodes`: the monitor thread's expiry, from the bucket lists only. */
    method CleanupExpiredNodes(now: int)
      requires Valid()
      modifies `buckets
      ensures Valid() && Model() == CleanedUp(old(Model()), old(Leaving(Expired(now))))
    {
      ghost var t, gone := Model(), Leaving(Expired(now));
      DropExpired(now);
      CleanupIntegrity(t, gone);
    }

    method DropExpired(now: int)
      requires Linked()
      modifies `buckets
      ensures Linked() && Model() == CleanedUp(old(Model()), old(Leaving(Expired(now))))
    {
      ghost var gone := Leaving(Expired(now));
      forall b, n | b in buckets && n in buckets[b]
        ensures n.serial in gone <==> Leaves(n, Expired(now), config.nodeTimeoutMs)
      {
        assert AllKnown(buckets[b]);
        LeavingKnown(n, Expired(now));
      }
      var left := FreshLists(buckets, now, config.nodeTimeoutMs, gone);
      forall b | b in left ensures AllKnown(left[b]) {
        assert AllKnown(buckets[b]);
      }
      ListsLeft(buckets, left, gone);
      buckets := left;
    }

    lemma LeavingKnown(n: DHTNode, why: Reason)
      requires Mirrored() && Known(n)
      ensures n in Nodes() && (n.serial in Leaving(why) <==> Leaves(n, why, config.nodeTimeoutMs))
    {
    }

    /** `clearExpiredNodes`. */
    method ClearExpiredNodes(now: int) returns (cleared: nat)
      requires Valid()
      modifies `registry
      ensures Valid() && Model() == Forgotten(old(Model()), old(Leaving(Expired(now))))
      ensures cleared == |old(registry)| - |registry|
      ensures forall id :: id in registry <==>
        id in old(registry) && now - old(registry)[id].lastSeen <= Millis(config.nodeTimeoutMs)
      ensures forall id :: id in registry ==> registry[id] == old(registry)[id]
    {
      ghost var t, gone := Model(), Leaving(Expired(now));
      cleared := ForgetNodes(Expired(now));
      ForgetIntegrity(t, gone);
    }

    /** `optimizeRoutingTable`. */
    method OptimizeRoutingTable()
      requires Valid()
      modifies `registry
      ensures Valid() && Model() == Forgotten(old(Model()), old(Leaving(Bad)))
      ensures forall id :: id in registry <==> id in old(registry) && old(registry)[id].status != BAD
      ensures forall id :: id in registry ==> registry[id] == old(registry)[id]
    {
      ghost var t, gone := Model(), Leaving(Bad);
      var _ := ForgetNodes(Bad);
      ForgetIntegrity(t, gone);
    }

    /** The step both share: nodes leave the registry and stay in their buckets. */
    method ForgetNodes(why: Reason) returns (cleared: nat)
      requires Linked()
      modifies `registry
      ensures Linked() && Model() == Forgotten(old(Model()), old(Leaving(why)))
      ensures cleared == |old(registry)| - |registry|
      ensures forall id :: id in registry <==>
        id in old(registry) && !Leaves(old(registry)[id], why, config.nodeTimeoutMs)
      ensures forall id :: id in registry ==> registry[id] == old(registry)[id]
    {
      ghost var gone := Leaving(why);
      forall id | id in registry
        ensures registry[id].serial in gone <==> Leaves(registry[id], why, config.nodeTimeoutMs)
      {
        LeavingKnown(registry[id], why);
      }
      var left, n := Remaining(registry, why, config.nodeTimeoutMs);
      HandlesLeft(registry, left, gone);
      registry, cleared := left, n;
    }

    /** `forceBucketMerge`, and what the monitor does to a bucket that got too small. */
    method MergeBucket(b: int) returns (found: bool)
      requires Valid()
      modifies this, Nodes()
      ensures Valid() && found == (b in old(buckets)) && registry == old(registry)
      ensures Model() == Merged(config, old(Model()), b)
    {
      if b !in buckets {
        return false;
      }
      if |buckets[b]| < config.minBucketSize && config.merging && b - 1 in buckets {
        ghost var t := Model();
        MergeIntoParent(b);
        MergeKeepsIntegrity(config, t, b);
      }
      return true;
    }

    method MergeIntoParent(b: int)
      requires Linked() && MergeDue(config, Model(), b)
      modifies `buckets, `nodes, Nodes()`bucketIndex
      ensures Linked() && registry == old(registry)
      ensures Model() == Merged(config, old(Model()), b)
    {
      var list := buckets[b];
      ghost var t := Model();
      assert AllKnown(list) && AllKnown(buckets[b - 1]);
      var joined := buckets[b - 1] + list;
      SerialsConcat(buckets[b - 1], list);
      SerialListsUpdate(buckets, b - 1, joined);
      SerialListsUpdate(buckets[b - 1 := joined], b, []);
      buckets := buckets[b - 1 := joined] - {b};
      assert AllKnown(list);
      Reindex(list, b - 1);
    }

    method Reindex(list: seq<DHTNode>, b: int)
      requires Linked() && AllKnown(list)
      modifies `nodes, Nodes()`bucketIndex
      ensures Linked()
      ensures nodes == Reindexed(old(nodes), Serials(list), b)
    {
      for i := 0 to |list|
        invariant nodes == old(nodes)
        invariant forall n :: n in Nodes() ==> n.bucketIndex == if n in list[..i] then b else old(n.bucketIndex)
      {
        assert list[i] in list && Known(list[i]) && list[i] in Nodes();
        list[i].bucketIndex := b;
      }
      assert list[..|list|] == list;
      forall h | 0 <= h < |created| ensures created[h] in list <==> h in Serials(list) {
        assert created[h].serial == h;
        InSerials(created, list, created[h]);
      }
      nodes := Reindexed(nodes, Serials(list), b);
    }

    /** `forceBucketSplit`, and what the monitor does to a bucket that got full. */
    method SplitBucket(b: int) returns (found: bool)
      requires Valid()
      modifies this
      ensures Valid() && found == (b in old(buckets)) && registry == old(registry)
      ensures Model() == Split(config, old(Model()), b)
    {
      if b !in buckets {
        return false;
      }
      if |buckets[b]| >= config.maxBucketSize && config.splitting {
        ghost var t := Model();
        SplitOff(b);
        SplitIntegrity(config, t, b);
      }
      return true;
    }

    method SplitOff(b: int)
      requires Linked() && SplitDue(config, Model(), b)
      modifies `buckets
      ensures Linked()
      ensures Model() == Split(config, old(Model()), b)
    {
      ghost var t := Model();
      assert AllKnown(buckets[b]);
      var keep, moved := Partition(buckets[b], b + 1, t);
      SerialListsUpdate(buckets, b, keep);
      SerialListsUpdate(buckets[b := keep], b + 1, moved);
      buckets := buckets[b := keep][b + 1 := moved];
    }

    method Partition(list: seq<DHTNode>, b: int, ghost t: Table) returns (keep: seq<DHTNode>, moved: seq<DHTNode>)
      requires t == Model() && Linked() && AllKnown(list)
      ensures Serials(keep) == WithoutIndex(t, Serials(list), b)
      ensures Serials(moved) == WithIndex(t, Serials(list), b)
      ensures AllKnown(keep) && AllKnown(moved)
    {
      keep, moved := [], [];
      for i := 0 to |list|
        invariant Serials(keep) == WithoutIndex(t, Serials(list[..i]), b)
        invariant Serials(moved) == WithIndex(t, Serials(list[..i]), b)
        invariant AllKnown(keep) && AllKnown(moved)
      {
        var n := list[i];
        assert n in list && Known(n) && HasIndex(t, n.serial, b) == (n.bucketIndex == b);
        SerialsStep(list, i);
        SerialsConcat(moved, [n]);
        SerialsConcat(keep, [n]);
        if n.bucketIndex == b {
          moved := moved + [n];
        } else {
          keep := keep + [n];
        }
      }
      assert list[..|list|] == list;
    }

    method ValidateRoutingTableIntegrity() returns (ok: bool)
      requires Valid()
      ensures ok == Complete(Model())
    {
      ghost var t := Model();
      var todo := registry.Keys;
      while todo != {}
        invariant todo <= registry.Keys
        invariant forall id :: id in registry.Keys - todo && Placed(t, t.registry[id]) ==>
          t.registry[id] in t.buckets[IndexOf(t, t.registry[id])]
        decreases todo
      {
        var id :| id in todo;
        var node := registry[id];
        assert Known(node) && IndexOf(t, node.serial) == node.bucketIndex;
        if node.bucketIndex >= 0 && node.bucketIndex in buckets {
          var nodes := buckets[node.bucketIndex];
          assert AllKnown(nodes);
          InSerials(created, nodes, node);
          if node !in nodes {
            assert Placed(t, t.registry[id]);
            return false;
          }
        }
        todo := todo - {id};
      }
      return true;
    }
  }

  /** Every node of the list is the one made under its serial number. */
  ghost predicate Genuine(created: seq<DHTNode>, nodes: seq<DHTNode>) {
    forall n :: n in nodes ==> n.serial < |created| && created[n.serial] == n
  }

  lemma InSerials(created: seq<DHTNode>, nodes: seq<DHTNode>, n: DHTNode)
    requires Genuine(created, nodes) && Genuine(created, [n])
    ensures n in nodes <==> n.serial in Serials(nodes)
  {
    assert n in [n];
    if n in nodes {
      var i :| 0 <= i < |nodes| && nodes[i] == n;
      assert Serials(nodes)[i] == n.serial;
    }
    if n.serial in Serials(nodes) {
      var i :| 0 <= i < |nodes| && Serials(nodes)[i] == n.serial;
      assert nodes[i] in nodes;
    }
  }

  lemma SerialsStep(list: seq<DHTNode>, i: nat)
    requires i < |list|
    ensures Serials(list[..i + 1])[..i] == Serials(list[..i]) && Serials(list[..i + 1])[i] == list[i].serial
    ensures Serials([list[i]]) == [list[i].serial]
  {
  }

  lemma {:induction false} DropSerials(created: seq<DHTNode>, nodes: seq<DHTNode>, n: DHTNode)
    requires Genuine(created, nodes) && Genuine(created, [n])
    ensures Serials(Drop(nodes, {n})) == Drop(Serials(nodes), {n.serial})
  {
    assert n in [n];
    if nodes != [] {
      var k := |nodes| - 1;
      assert nodes[k] in nodes;
      DropSerials(created, nodes[..k], n);
      assert Serials(nodes)[..k] == Serials(nodes[..k]);
    }
  }
}
