/** The unlimited metadata request queue (`MetadataRequestQueue`): a vector searched for its first entry of
    highest priority, with a set of the queued hashes beside it for look-up. */
module RequestQueue {
  import opened Wrappers
  import opened HashFormat

  /** Higher number, higher priority. */
  datatype Entry = Entry(hash: Text, priority: int, source: string)

  function Hashes(q: seq<Entry>): set<Text> {
    set e | e in q :: e.hash
  }

  ghost predicate Distinct(q: seq<Entry>) {
    forall i, j :: 0 <= i < j < |q| ==> q[i].hash != q[j].hash
  }

  function Enqueued(q: seq<Entry>, e: Entry): seq<Entry> {
    if e.hash in Hashes(q) then q else q + [e]
  }

  /** The first entry of highest priority. */
  function Best(q: seq<Entry>): (b: nat)
    requires q != []
    ensures b < |q|
    ensures forall i :: 0 <= i < |q| ==> q[i].priority <= q[b].priority
    ensures forall i :: 0 <= i < b ==> q[i].priority < q[b].priority
  {
    var n := |q| - 1;
    if n == 0 then 0
    else
      var b := Best(q[..n]);
      assert forall i :: 0 <= i < n ==> q[i] == q[..n][i];
      if q[n].priority > q[b].priority then n else b
  }

  function Without(q: seq<Entry>, i: nat): seq<Entry>
    requires i < |q|
  {
    q[..i] + q[i + 1..]
  }

  class MetadataRequestQueue {
    var queue: seq<Entry>
    var index: set<Text>

    ghost predicate Valid()
      reads this
    {
      Distinct(queue) && index == Hashes(queue)
    }

    constructor ()
      ensures Valid() && queue == []
    {
      queue, index := [], {};
    }

    method Enqueue(e: Entry)
      requires Valid()
      modifies this
      ensures Valid() && queue == Enqueued(old(queue), e)
    {
      if e.hash in index {
        return;
      }
      queue := queue + [e];
      index := index + {e.hash};
    }

    method Dequeue() returns (r: Option<Entry>)
      requires Valid()
      modifies this
      ensures Valid()
      ensures old(queue) == [] ==> r == None && queue == []
      ensures old(queue) != [] ==>
        r == Some(old(queue)[Best(old(queue))]) && queue == Without(old(queue), Best(old(queue)))
    {
      if queue == [] {
        return None;
      }
      var best := FindBest(queue);
      var e := queue[best];
      RemovalKeepsIndex(queue, best);
      index := index - {e.hash};
      queue := queue[..best] + queue[best + 1..];
      r := Some(e);
    }

    method Contains(hash: Text) returns (b: bool)
      requires Valid()
      ensures b <==> exists i :: 0 <= i < |queue| && queue[i].hash == hash
    {
      b := hash in index;
    }
  }

  /** The scan of `dequeue`. */
  method FindBest(q: seq<Entry>) returns (best: nat)
    requires q != []
    ensures best == Best(q)
  {
    best := 0;
    var i := 0;
    while i < |q|
      invariant 0 <= i <= |q| && best < |q|
      invariant if i == 0 then best == 0 else best == Best(q[..i])
    {
      assert i > 0 ==> q[..i + 1][..i] == q[..i];
      if q[i].priority > q[best].priority {
        best := i;
      }
      i := i + 1;
    }
    assert q[..i] == q;
  }

  /** Removing one entry removes exactly its hash. */
  lemma RemovalKeepsIndex(q: seq<Entry>, i: nat)
    requires Distinct(q) && i < |q|
    ensures Distinct(Without(q, i)) && Hashes(Without(q, i)) == Hashes(q) - {q[i].hash}
  {
    var r := Without(q, i);
    forall e | e in r ensures e in q && e.hash != q[i].hash {
      StillThere(q, i, e);
    }
    forall e | e in q && e.hash != q[i].hash ensures e in r {
      var k :| 0 <= k < |q| && q[k] == e;
      assert e == r[if k < i then k else k - 1];
    }
  }

  lemma StillThere(q: seq<Entry>, i: nat, e: Entry)
    requires Distinct(q) && i < |q| && e in Without(q, i)
    ensures e in q && e.hash != q[i].hash
  {
    var r := Without(q, i);
    var k :| 0 <= k < |r| && r[k] == e;
    assert e == q[if k < i then k else k + 1];
  }

  // ----- Draining is stable sorting -----

  /** What repeated `dequeue` calls hand out when nothing is added. */
  function Drain(q: seq<Entry>): seq<Entry>
    decreases |q|
  {
    if q == [] then [] else [q[Best(q)]] + Drain(Without(q, Best(q)))
  }

  /** The entries of one priority, in queue order. */
  ghost function OfPriority(q: seq<Entry>, p: int): seq<Entry> {
    if q == [] then [] else If(q[0], p) + OfPriority(q[1..], p)
  }

  ghost function If(e: Entry, p: int): seq<Entry> {
    if e.priority == p then [e] else []
  }

  ghost predicate Descending(q: seq<Entry>) {
    forall i, j :: 0 <= i < j < |q| ==> q[i].priority >= q[j].priority
  }

  /** `r` is `q` by descending priority, first in first out within each priority. */
  ghost predicate StableSortOf(r: seq<Entry>, q: seq<Entry>) {
    Descending(r) && forall p :: OfPriority(r, p) == OfPriority(q, p)
  }

  lemma {:induction false} OfPriorityEmpty(q: seq<Entry>, p: int)
    ensures OfPriority(q, p) == [] <==> forall i :: 0 <= i < |q| ==> q[i].priority != p
  {
    if q != [] {
      OfPriorityEmpty(q[1..], p);
      assert forall i :: 0 < i < |q| ==> q[i] == q[1..][i - 1];
    }
  }

  /** Taking out an entry that beats everything before it takes it from the front of its priority. */
  lemma {:induction false} OfPriorityRemoved(q: seq<Entry>, b: nat, p: int)
    requires b < |q| && forall i :: 0 <= i < b ==> q[i].priority < q[b].priority
    ensures OfPriority(q, p) == If(q[b], p) + OfPriority(Without(q, b), p)
  {
    if b == 0 {
      assert Without(q, b) == q[1..];
    } else {
      var r := Without(q, b);
      assert r[0] == q[0] && r[1..] == Without(q[1..], b - 1);
      OfPriorityRemoved(q[1..], b - 1, p);
      assert If(q[0], p) == [] || If(q[b], p) == [];
    }
  }

  /** The stable sort of a queue is unique, so the predicate pins the order completely. */
  lemma {:induction false} StableSortUnique(r: seq<Entry>, s: seq<Entry>, q: seq<Entry>)
    requires StableSortOf(r, q) && StableSortOf(s, q)
    ensures r == s
    decreases |r|
  {
    if r == [] || s == [] {
      var t := if r == [] then s else r;
      if t != [] {
        OfPriorityEmpty(t, t[0].priority);
        OfPriorityEmpty([], t[0].priority);
      }
    } else {
      TopPriority(r, s, q);
      TopPriority(s, r, q);
      var p := r[0].priority;
      assert OfPriority(r, p) == OfPriority(s, p);
      assert OfPriority(r, p)[0] == r[0] && OfPriority(s, p)[0] == s[0];
      forall x ensures OfPriority(r[1..], x) == OfPriority(s[1..], x) {
        assert OfPriority(r, x) == OfPriority(s, x);
        assert OfPriority(r[1..], x) == OfPriority(r, x)[|If(r[0], x)|..];
        assert OfPriority(s[1..], x) == OfPriority(s, x)[|If(s[0], x)|..];
      }
      StableSortUnique(r[1..], s[1..], s[1..]);
    }
  }

  lemma TopPriority(r: seq<Entry>, s: seq<Entry>, q: seq<Entry>)
    requires StableSortOf(r, q) && StableSortOf(s, q) && r != [] && s != []
    ensures r[0].priority >= s[0].priority
  {
    var p := s[0].priority;
    assert OfPriority(r, p) == OfPriority(s, p);
    OfPriorityEmpty(s, p);
    OfPriorityEmpty(r, p);
    var i :| 0 <= i < |r| && r[i].priority == p;
  }

  lemma {:induction false} DrainPermutes(q: seq<Entry>)
    ensures multiset(Drain(q)) == multiset(q)
    decreases |q|
  {
    if q != [] {
      DrainPermutes(Without(q, Best(q)));
      TakenOut(q, Best(q));
    }
  }

  lemma TakenOut(q: seq<Entry>, b: nat)
    requires b < |q|
    ensures multiset(q) == multiset{q[b]} + multiset(Without(q, b))
  {
    assert q == q[..b] + [q[b]] + q[b + 1..];
  }

  lemma DrainTopFirst(q: seq<Entry>, e: Entry)
    requires q != [] && e in Drain(Without(q, Best(q)))
    ensures e.priority <= q[Best(q)].priority
  {
    var rest := Without(q, Best(q));
    DrainPermutes(rest);
    assert e in multiset(Drain(rest));
    assert e in rest;
  }

  /** Draining hands out exactly the stable sort of the queue by descending priority. */
  lemma {:induction false} DrainIsStableSort(q: seq<Entry>)
    ensures StableSortOf(Drain(q), q)
    decreases |q|
  {
    if q != [] {
      var b := Best(q);
      var rest := Drain(Without(q, b));
      DrainIsStableSort(Without(q, b));
      assert Drain(q)[0] == q[b] && Drain(q)[1..] == rest;
      forall p ensures OfPriority(Drain(q), p) == OfPriority(q, p) {
        OfPriorityRemoved(q, b, p);
        assert OfPriority(rest, p) == OfPriority(Without(q, b), p);
      }
      forall i | 0 <= i < |rest| ensures rest[i].priority <= q[b].priority {
        DrainTopFirst(q, rest[i]);
      }
    }
  }
}
