/** What every run of the routing table keeps, the monitor thread's expiry included. */
module RoutingTableRuns {
  import opened Sequences
  import opened Kademlia
  import opened Closest
  import opened RoutingTable

  // ----- Runs -----

  datatype Event =
    | Add(id: NodeId, ip: string, port: int)
    | Remove(id: NodeId)
    | Evict(id: NodeId)
    | SplitAt(bucket: int)
    | MergeAt(bucket: int)
    | CleanUp(gone: set<Handle>)
    | Forget(gone: set<Handle>)
    | Clear

  function Step(c: Config, our: NodeId, t: Table, e: Event): Table {
    match e
    case Add(id, ip, port) => if ValidAddress(id, ip, port) then Added(t, our, id) else t
    case Remove(id) => Removed(t, id)
    case Evict(id) => Removed(t, id)
    case SplitAt(b) => Split(c, t, b)
    case MergeAt(b) => Merged(c, t, b)
    case CleanUp(gone) => CleanedUp(t, gone)
    case Forget(gone) => Forgotten(t, gone)
    case Clear => Cleared(t)
  }

  function Run(c: Config, our: NodeId, events: seq<Event>): Table {
    if events == [] then EMPTY else Step(c, our, Run(c, our, events[..|events| - 1]), events[|events| - 1])
  }

  lemma RunNext(c: Config, our: NodeId, events: seq<Event>, e: Event)
    ensures Run(c, our, events + [e]) == Step(c, our, Run(c, our, events), e)
  {
    assert (events + [e])[..|events|] == events;
  }

  lemma StepKeepsSound(c: Config, our: NodeId, t: Table, e: Event)
    requires Sound(t)
    ensures Sound(Step(c, our, t, e))
    ensures Registered(t) && !e.Forget? ==> Registered(Step(c, our, t, e))
    ensures Complete(t) && !e.SplitAt? && !e.CleanUp? ==> Complete(Step(c, our, t, e))
  {
    match e
    case Add(id, ip, port) => AddKeepsIntegrity(t, our, id);
    case Remove(id) => RemoveKeepsIntegrity(t, id);
    case Evict(id) => RemoveKeepsIntegrity(t, id);
    case SplitAt(b) => SplitIntegrity(c, t, b);
    case MergeAt(b) => MergeKeepsIntegrity(c, t, b);
    case CleanUp(gone) => CleanupIntegrity(t, gone);
    case Forget(gone) => ForgetIntegrity(t, gone);
    case Clear =>
  }

  // ----- The registry and the history -----

  predicate Adds(e: Event, id: NodeId) {
    e.Add? && e.id == id && ValidAddress(id, e.ip, e.port)
  }

  /** The event takes `id` out of the registry of table `t`. */
  predicate Drops(t: Table, e: Event, id: NodeId) {
    match e
    case Remove(x) => x == id
    case Evict(x) => x == id
    case Forget(gone) => id in t.registry && t.registry[id] in gone
    case Clear => true
    case _ => false
  }

  /** `id` was added by event `i` and nothing has taken it out since. */
  ghost predicate AliveSince(c: Config, our: NodeId, events: seq<Event>, id: NodeId, i: nat) {
    && i < |events| && Adds(events[i], id)
    && forall j: nat :: i < j < |events| ==> !DroppedAt(c, our, events, id, j)
  }

  ghost predicate DroppedAt(c: Config, our: NodeId, events: seq<Event>, id: NodeId, j: nat)
    requires j < |events|
  {
    Drops(Run(c, our, events[..j]), events[j], id)
  }

  lemma StepRegistry(c: Config, our: NodeId, t: Table, e: Event, id: NodeId)
    ensures id in Step(c, our, t, e).registry <==> Adds(e, id) || (id in t.registry && !Drops(t, e, id))
  {
  }

  /** In every run an id is registered exactly when it was added, with a valid address, and since then
      neither removed, evicted, forgotten nor cleared, whether or not it found a bucket. */
  lemma {:induction false} RegisteredExactly(c: Config, our: NodeId, events: seq<Event>, id: NodeId)
    ensures id in Run(c, our, events).registry <==> exists i: nat :: AliveSince(c, our, events, id, i)
  {
    if events == [] {
      assert forall i: nat :: !AliveSince(c, our, events, id, i);
    } else {
      var n := |events| - 1;
      var front := events[..n];
      RegisteredExactly(c, our, front, id);
      StepRegistry(c, our, Run(c, our, front), events[n], id);
      AliveExtends(c, our, events, id);
    }
  }

  lemma AliveExtends(c: Config, our: NodeId, events: seq<Event>, id: NodeId)
    requires events != []
    ensures
      var n := |events| - 1;
      (exists i: nat :: AliveSince(c, our, events, id, i)) <==>
      Adds(events[n], id) ||
      ((exists i: nat :: AliveSince(c, our, events[..n], id, i)) && !Drops(Run(c, our, events[..n]), events[n], id))
  {
    var n := |events| - 1;
    var front := events[..n];
    forall i: nat | i < n
      ensures AliveSince(c, our, events, id, i) <==>
        AliveSince(c, our, front, id, i) && !Drops(Run(c, our, front), events[n], id)
    {
      AliveStep(c, our, events, id, i);
    }
    if Adds(events[n], id) {
      assert AliveSince(c, our, events, id, n);
    }
  }

  lemma AliveStep(c: Config, our: NodeId, events: seq<Event>, id: NodeId, i: nat)
    requires i < |events| - 1
    ensures
      var n := |events| - 1;
      AliveSince(c, our, events, id, i) <==>
        AliveSince(c, our, events[..n], id, i) && !Drops(Run(c, our, events[..n]), events[n], id)
  {
    var n := |events| - 1;
    assert DroppedAt(c, our, events, id, n) <==> Drops(Run(c, our, events[..n]), events[n], id);
    forall j: nat | j < n ensures DroppedAt(c, our, events[..n], id, j) <==> DroppedAt(c, our, events, id, j) {
      assert events[..n][..j] == events[..j];
    }
  }

  /** Bucket lists are sound in every reachable table, expiry included. */
  lemma {:induction false} ReachableSound(c: Config, our: NodeId, events: seq<Event>)
    ensures Sound(Run(c, our, events))
  {
    if events != [] {
      var n := |events| - 1;
      ReachableSound(c, our, events[..n]);
      StepKeepsSound(c, our, Run(c, our, events[..n]), events[n]);
    }
  }

  /** No bucket ever holds a node other than ourselves. */
  ghost predicate OnlySelf(our: NodeId, t: Table) {
    forall b, h :: b in t.buckets && h in t.buckets[b] ==> Names(t, our, h)
  }

  /** Foreign indices start at 24. */
  predicate OwnOrFar(our: NodeId, n: Node) {
    n.index < 0 || n.index >= 24 || (n.id == our && n.index == 0)
  }

  /** Only buckets 0..7 exist, none but bucket 0 holds anything, and no foreign node has an index among
      them. */
  ghost predicate Unplaced(our: NodeId, t: Table) {
    && (forall b :: b in t.buckets ==> b < 8 && (b != 0 ==> t.buckets[b] == []))
    && (forall h :: 0 <= h < |t.nodes| ==> OwnOrFar(our, t.nodes[h]))
  }

  /** Every split that is due has something to split, or splitting is off. */
  predicate Splittable(c: Config) {
    1 <= c.maxBucketSize || !c.splitting
  }

  lemma AddKeepsUnplaced(our: NodeId, t: Table, id: NodeId)
    requires Unplaced(our, t)
    ensures Unplaced(our, Added(t, our, id))
  {
    if id !in t.registry {
      IndexSpecialCases(our, id);
      if |our| == |id| && our != id { IndexMeaning(our, id); }
      assert OwnOrFar(our, Node(id, BucketIndex(our, id)));
    }
  }

  lemma MergeKeepsUnplaced(c: Config, our: NodeId, t: Table, b: int)
    requires Unplaced(our, t) && Sound(t)
    ensures Unplaced(our, Merged(c, t, b))
  {
    if MergeDue(c, t, b) {
      assert 0 <= b - 1;
      assert t.buckets[b] == [];
      assert Reindexed(t.nodes, [], b - 1) == t.nodes;
      assert t.buckets[b - 1] + [] == t.buckets[b - 1];
    }
  }

  lemma StepKeepsUnplaced(c: Config, our: NodeId, t: Table, e: Event)
    requires Unplaced(our, t) && Sound(t) && Splittable(c)
    ensures Unplaced(our, Step(c, our, t, e))
  {
    match e
    case Add(id, _, _) => AddKeepsUnplaced(our, t, id);
    case SplitAt(b) =>
      if SplitDue(c, t, b) { SplitEffect(c, t, b); }
    case MergeAt(b) => MergeKeepsUnplaced(c, our, t, b);
    case _ =>
  }

  lemma {:induction false} ReachableUnplaced(c: Config, our: NodeId, events: seq<Event>)
    requires Splittable(c)
    ensures Unplaced(our, Run(c, our, events))
  {
    if events != [] {
      var n := |events| - 1;
      ReachableUnplaced(c, our, events[..n]);
      ReachableSound(c, our, events[..n]);
      StepKeepsUnplaced(c, our, Run(c, our, events[..n]), events[n]);
    }
  }

  lemma UnplacedHoldsOnlySelf(our: NodeId, t: Table)
    requires Unplaced(our, t) && Sound(t)
    ensures OnlySelf(our, t)
  {
    forall b, h | b in t.buckets && h in t.buckets[b] ensures Names(t, our, h) {
      assert SoundBucket(t, b) && HasIndex(t, h, b);
      assert OwnOrFar(our, t.nodes[h]);
    }
  }

  // With bucket size 0 every split is due, so buckets can be grown up to index 24.

  ghost function Splits(k: nat): seq<Event> {
    if k == 0 then [] else Splits(k - 1) + [SplitAt(6 + k)]
  }

  ghost predicate Vacant(t: Table, k: nat) {
    && t.nodes == [] && t.registry == map[]
    && (forall b :: 0 <= b <= 7 + k ==> b in t.buckets)
    && (forall b :: b in t.buckets ==> t.buckets[b] == [])
  }

  lemma {:induction false} SplitsGrow(c: Config, our: NodeId, k: nat)
    requires !Splittable(c)
    ensures Vacant(Run(c, our, Splits(k)), k)
  {
    if k > 0 {
      SplitsGrow(c, our, k - 1);
      RunNext(c, our, Splits(k - 1), SplitAt(6 + k));
      SplitOfEmpty(c, Run(c, our, Splits(k - 1)), 6 + k);
    }
  }

  lemma SplitOfEmpty(c: Config, t: Table, b: int)
    requires SplitDue(c, t, b) && t.buckets[b] == []
    ensures Split(c, t, b) == t.(buckets := t.buckets[b + 1 := []])
  {
    assert t.buckets[b := t.buckets[b]] == t.buckets;
  }

  /** Our id with its first bit flipped. */
  lemma FirstBitFlipped(our: NodeId) returns (id: NodeId)
    requires |our| == 20
    ensures |id| == 20 && id != our && BucketIndex(our, id) == 24
  {
    id := [our[0] ^ 128] + our[1..];
    XorHead(our, id);
    FlipTop(our[0]);
    var v := Values(Xor(our, id));
    assert v[0] == 128;
    assert Clz32(128) == 24 by { ClzOfByte(128); }
  }

  lemma FlipTop(x: bv8)
    ensures x ^ (x ^ 128) == 128 && x ^ 128 != x
  {
  }

  /** With bucket size 0, a run without expiry that puts a foreign node, handle 0, into bucket 24. */
  lemma ForeignPlaced(c: Config, our: NodeId) returns (events: seq<Event>, id: NodeId)
    requires |our| == 20 && !Splittable(c)
    ensures id != our && forall e :: e in events ==> e.SplitAt? || (e.Add? && e.id == id)
    ensures
      var t := Run(c, our, events);
      && t.nodes == [Node(id, 24)] && t.registry == map[id := 0]
      && 23 in t.buckets && 24 in t.buckets && t.buckets[24] == [0]
  {
    SplitsGrow(c, our, 17);
    SplitsOnly(17);
    id := FirstBitFlipped(our);
    var t := Run(c, our, Splits(17));
    RunNext(c, our, Splits(17), Add(id, ".", 1));
    events := Splits(17) + [Add(id, ".", 1)];
    AddToVacant(t, 17, our, id);
  }

  lemma AddToVacant(t: Table, k: nat, our: NodeId, id: NodeId)
    requires Vacant(t, k) && BucketIndex(our, id) == 7 + k
    ensures Added(t, our, id) == Table([Node(id, 7 + k)], map[id := 0], t.buckets[7 + k := [0]])
  {
    assert t.buckets[7 + k] + [0] == [0] && t.nodes + [Node(id, 7 + k)] == [Node(id, 7 + k)];
  }

  lemma {:induction false} SplitsOnly(k: nat)
    ensures forall e :: e in Splits(k) ==> e.SplitAt?
  {
    if k > 0 { SplitsOnly(k - 1); }
  }

  /** In every run no node but ourselves ever enters a bucket, because foreign indices start at 24 and only
      buckets 0..7 are made at the start; the one way out is splitting enabled with bucket size 0. */
  lemma BucketsHoldOnlySelfExactly(c: Config, our: NodeId)
    requires |our| == 20
    ensures (forall events :: OnlySelf(our, Run(c, our, events))) <==> Splittable(c)
  {
    if Splittable(c) {
      forall events ensures OnlySelf(our, Run(c, our, events)) {
        ReachableUnplaced(c, our, events);
        ReachableSound(c, our, events);
        UnplacedHoldsOnlySelf(our, Run(c, our, events));
      }
    } else {
      var events, id := ForeignPlaced(c, our);
      var t := Run(c, our, events);
      assert 24 in t.buckets && 0 in t.buckets[24] && !Names(t, our, 0);
      assert !OnlySelf(our, t);
    }
  }

  // ----- When the two indexes agree in every run -----

  /** Runs that add our own id only if `self`, expire nodes from the lists only if `cleanup`, and forget
      nodes from the registry only if `forget`. */
  ghost predicate Within(events: seq<Event>, our: NodeId, self: bool, cleanup: bool, forget: bool) {
    forall e :: e in events ==>
      && (e.Add? && e.id == our ==> self) && (e.CleanUp? ==> cleanup) && (e.Forget? ==> forget)
  }

  ghost predicate WithoutSelf(our: NodeId, t: Table) {
    forall h :: 0 <= h < |t.nodes| ==> t.nodes[h].id != our
  }

  lemma {:induction false} SelfNeverAppears(c: Config, our: NodeId, events: seq<Event>, cleanup: bool, forget: bool)
    requires Within(events, our, false, cleanup, forget)
    ensures WithoutSelf(our, Run(c, our, events))
  {
    if events != [] {
      var n := |events| - 1;
      assert events[n] in events;
      SelfNeverAppears(c, our, events[..n], cleanup, forget);
    }
  }

  lemma SelfIsThere(our: NodeId, t: Table, b: int)
    requires OnlySelf(our, t) && b in t.buckets && t.buckets[b] != []
    ensures exists h :: 0 <= h < |t.nodes| && t.nodes[h].id == our
  {
    var h := t.buckets[b][0];
    assert h in t.buckets[b] && Names(t, our, h);
    assert t.nodes[h].id == our;
  }

  /** Without our own id nothing is placed at all, so nothing can go missing. */
  lemma NothingPlaced(our: NodeId, t: Table)
    requires Unplaced(our, t) && Sound(t) && WithoutSelf(our, t)
    ensures Complete(t) && Registered(t)
  {
    UnplacedHoldsOnlySelf(our, t);
    forall b | b in t.buckets ensures t.buckets[b] == [] {
      if t.buckets[b] != [] { SelfIsThere(our, t, b); }
    }
    forall id | id in t.registry ensures !Placed(t, t.registry[id]) {
      assert Names(t, id, t.registry[id]) && OwnOrFar(our, t.nodes[t.registry[id]]);
    }
  }

  lemma SplitKeepsComplete(c: Config, our: NodeId, t: Table, b: int)
    requires Unplaced(our, t) && Sound(t) && Complete(t) && Splittable(c)
    ensures Complete(Split(c, t, b))
  {
    if SplitDue(c, t, b) {
      assert b == 0;
      forall id | id in t.registry ensures !HasIndex(t, t.registry[id], 1) {
        assert Names(t, id, t.registry[id]) && OwnOrFar(our, t.nodes[t.registry[id]]);
      }
      SplitIntegrity(c, t, b);
    }
  }

  lemma {:induction false} ReachableComplete(c: Config, our: NodeId, events: seq<Event>, self: bool, cleanup: bool)
    requires Splittable(c) && Within(events, our, self, cleanup, true) && !(self && cleanup)
    ensures Complete(Run(c, our, events))
  {
    if events != [] {
      var n := |events| - 1;
      var t := Run(c, our, events[..n]);
      assert events[n] in events;
      ReachableComplete(c, our, events[..n], self, cleanup);
      ReachableUnplaced(c, our, events[..n]);
      ReachableSound(c, our, events[..n]);
      if events[n].SplitAt? {
        SplitKeepsComplete(c, our, t, events[n].bucket);
      } else if events[n].CleanUp? {
        SelfNeverAppears(c, our, events, cleanup, true);
        ReachableUnplaced(c, our, events);
        ReachableSound(c, our, events);
        NothingPlaced(our, Run(c, our, events));
      } else {
        StepKeepsSound(c, our, t, events[n]);
      }
    }
  }

  /** Our own id, added and then expired from bucket 0, stays registered. */
  lemma SelfExpires(c: Config, our: NodeId) returns (events: seq<Event>)
    requires |our| == 20
    ensures !Complete(Run(c, our, events)) && Within(events, our, true, true, false)
  {
    var start := [Add(our, ".", 1)];
    IndexSpecialCases(our, our);
    RunNext(c, our, [], Add(our, ".", 1));
    assert start == [] + start;
    events := start + [CleanUp({0})];
    RunNext(c, our, start, CleanUp({0}));
    var t := Run(c, our, events);
    assert t.registry == map[our := 0] && t.nodes == [Node(our, 0)];
    assert 0 in t.buckets && 0 !in t.buckets[0] && Placed(t, 0);
  }

  /** Splitting next to a foreign node loses it. */
  lemma ForeignLost(c: Config, our: NodeId) returns (events: seq<Event>)
    requires |our| == 20 && !Splittable(c)
    ensures !Complete(Run(c, our, events)) && Within(events, our, false, false, false)
  {
    var placed, id := ForeignPlaced(c, our);
    var t := Run(c, our, placed);
    ReachableSound(c, our, placed);
    SplitEffect(c, t, 23);
    RunNext(c, our, placed, SplitAt(23));
    events := placed + [SplitAt(23)];
    var t' := Run(c, our, events);
    assert id in t'.registry && Placed(t', t'.registry[id]) && t'.buckets[24] == [];
  }

  /** The integrity check succeeds in every run, forgetting included, exactly when splitting is off or the
      bucket size is positive, and our own id is not added or the monitor never expires a listed node. */
  lemma IntegrityHoldsExactly(c: Config, our: NodeId, self: bool, cleanup: bool)
    requires |our| == 20
    ensures (forall events :: Within(events, our, self, cleanup, true) ==> Complete(Run(c, our, events))) <==>
      Splittable(c) && !(self && cleanup)
  {
    if Splittable(c) && !(self && cleanup) {
      forall events | Within(events, our, self, cleanup, true) ensures Complete(Run(c, our, events)) {
        ReachableComplete(c, our, events, self, cleanup);
      }
    } else if self && cleanup {
      var events := SelfExpires(c, our);
      assert Within(events, our, self, cleanup, true);
    } else {
      var events := ForeignLost(c, our);
      assert Within(events, our, self, cleanup, true);
    }
  }

  lemma {:induction false} ReachableRegistered(c: Config, our: NodeId, events: seq<Event>, self: bool, forget: bool)
    requires Within(events, our, self, true, forget) && (forget ==> Splittable(c) && !self)
    ensures Registered(Run(c, our, events))
  {
    if forget {
      SelfNeverAppears(c, our, events, true, true);
      ReachableUnplaced(c, our, events);
      ReachableSound(c, our, events);
      NothingPlaced(our, Run(c, our, events));
    } else if events != [] {
      var n := |events| - 1;
      assert events[n] in events;
      ReachableRegistered(c, our, events[..n], self, forget);
      ReachableSound(c, our, events[..n]);
      StepKeepsSound(c, our, Run(c, our, events[..n]), events[n]);
    }
  }

  /** A node in a bucket, forgotten from the registry, stays in the bucket. */
  lemma ForgottenStays(c: Config, our: NodeId, events: seq<Event>, b: int)
    requires var t := Run(c, our, events); b in t.buckets && 0 in t.buckets[b] && Current(t, 0)
    ensures !Registered(Run(c, our, events + [Forget({0})]))
  {
    RunNext(c, our, events, Forget({0}));
    var t := Run(c, our, events + [Forget({0})]);
    assert b in t.buckets && 0 in t.buckets[b] && !Current(t, 0);
  }

  lemma UnregisteredWitness(c: Config, our: NodeId, self: bool) returns (events: seq<Event>)
    requires |our| == 20 && (self || !Splittable(c))
    ensures !Registered(Run(c, our, events)) && Within(events, our, self, false, true)
  {
    if self {
      var start := [Add(our, ".", 1)];
      IndexSpecialCases(our, our);
      RunNext(c, our, [], Add(our, ".", 1));
      assert start == [] + start;
      var t := Run(c, our, start);
      assert t.buckets[0] == [0] && Current(t, 0);
      ForgottenStays(c, our, start, 0);
      events := start + [Forget({0})];
    } else {
      var placed, id := ForeignPlaced(c, our);
      ForgottenStays(c, our, placed, 24);
      events := placed + [Forget({0})];
    }
  }

  /** Every listed node is registered in every run, the monitor's expiry included, exactly when nothing is
      forgotten from the registry alone, or nothing that is forgotten can be in a bucket. */
  lemma ListsRegisteredExactly(c: Config, our: NodeId, self: bool, forget: bool)
    requires |our| == 20
    ensures (forall events :: Within(events, our, self, true, forget) ==> Registered(Run(c, our, events))) <==>
      !forget || (Splittable(c) && !self)
  {
    if !forget || (Splittable(c) && !self) {
      forall events | Within(events, our, self, true, forget) ensures Registered(Run(c, our, events)) {
        ReachableRegistered(c, our, events, self, forget);
      }
    } else {
      var events := UnregisteredWitness(c, our, self);
      assert Within(events, our, self, true, forget);
    }
  }

  // ----- The nodes offered as closest -----

  lemma {:induction false} RegisteredIdLength(c: Config, our: NodeId, events: seq<Event>, id: NodeId)
    requires id in Run(c, our, events).registry
    ensures |id| == 20
  {
    var n := |events| - 1;
    if id in Run(c, our, events[..n]).registry {
      RegisteredIdLength(c, our, events[..n], id);
    }
  }

  /** In every reachable table, however its registry is enumerated: the nodes offered as closest are
      registered, strictly sorted, and closer to us than every registered node left out. */
  lemma ClosestOfReachable(
    c: Config, our: NodeId, events: seq<Event>, signed: bool, all: seq<NodeId>, count: int, r: seq<NodeId>)
    requires |our| == 20 && NoRepeats(all) && forall id :: id in all <==> id in Run(c, our, events).registry
    requires ClosestOf(signed, our, all, count, r)
    ensures |r| == if 0 < count < |all| then count else |all|
    ensures forall x :: x in r ==> x in Run(c, our, events).registry
    ensures forall i, j :: 0 <= i < j < |r| ==> Closer(signed, our, r[i], r[j])
    ensures forall x, y :: x in Run(c, our, events).registry && x !in r && y in r ==> Closer(signed, our, y, x)
  {
    forall i | 0 <= i < |all| ensures |all[i]| == 20 {
      assert all[i] in all;
      RegisteredIdLength(c, our, events, all[i]);
    }
    ClosestAreClosest(signed, our, all, count, r);
  }
}
