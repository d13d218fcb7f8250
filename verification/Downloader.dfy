/** The metadata request scheduler (`PersistentMetadataDownloader`): queue, active requests, concurrency
    limit, and the retry rule that lowers a failed request's priority. */
module Downloader {
  import opened Machine
  import opened HashFormat
  import opened RequestQueue

  datatype Info = Info(requestTime: int, priority: int, source: string)

  /** What the session does with one attempt to add a torrent, and the clock at that moment. */
  datatype Answer = Answer(ok: bool, now: int)

  type Answers = nat -> Answer

  /** History that no counter of the program records: for each hash the request last accepted and the
      attempts made for it since, the requests dropped for good, and the active requests ended by receipt. */
  datatype Log = Log(granted: map<Text, Entry>, tries: map<Text, nat>, drops: nat, received: nat)

  datatype World = World(
    session: bool,
    queue: seq<Entry>,
    active: map<Text, Info>,
    limit: Int32,
    timeoutSec: Int32,
    success: nat,
    failure: nat,
    timeouts: nat,
    totalQueued: nat,
    totalProcessed: nat,
    log: Log)

  const START := World(true, [], map[], 1000, 20, 0, 0, 0, 0, 0, Log(map[], map[], 0, 0))

  const MAX_PER_ROUND := 50

  // ----- Processing the queue -----

  /** `process_single_request` succeeds when the hash converts and the session takes the torrent. */
  predicate Succeeds(e: Entry, a: Answer) {
    Convertible(e.hash) && a.ok
  }

  predicate MayProcess(w: World, done: nat) {
    w.queue != [] && |w.active| < AsSize(w.limit) && done < MAX_PER_ROUND
  }

  function Noted(log: Log, h: Text): Log {
    log.(tries := log.tries[h := 1 + if h in log.tries then log.tries[h] else 0])
  }

  function Next(w: World): Entry
    requires w.queue != []
  {
    w.queue[Best(w.queue)]
  }

  function Taken(w: World): World
    requires w.queue != []
  {
    w.(queue := Without(w.queue, Best(w.queue)), log := Noted(w.log, Next(w).hash))
  }

  function Started(w: World, e: Entry, now: int): World {
    w.(active := w.active[e.hash := Info(now, e.priority, e.source)], totalProcessed := w.totalProcessed + 1)
  }

  function Demoted(e: Entry): Entry {
    Entry(e.hash, e.priority - 1, e.source + "_RETRY")
  }

  function Requeued(w: World, e: Entry): World {
    w.(queue := Enqueued(w.queue, Demoted(e)))
  }

  function Dropped(w: World): World {
    w.(failure := w.failure + 1, log := w.log.(drops := w.log.drops + 1))
  }

  /** One turn of the loop in `process_queue`. */
  function Turn(w: World, a: Answer): World
    requires w.queue != []
  {
    var e := Next(w);
    if Succeeds(e, a) then Started(Taken(w), e, a.now)
    else if e.priority > 1 then Requeued(Taken(w), e)
    else Dropped(Taken(w))
  }

  /** Attempts the queue can still cause: an entry of priority p is worth max(1, p). */
  ghost function Work(q: seq<Entry>): nat {
    if q == [] then 0 else Work(q[..|q| - 1]) + Max(1, q[|q| - 1].priority)
  }

  lemma {:induction false} WorkWithout(q: seq<Entry>, i: nat)
    requires i < |q|
    ensures Work(q) == Work(Without(q, i)) + Max(1, q[i].priority)
  {
    var n := |q| - 1;
    if i == n {
      assert Without(q, i) == q[..n];
    } else {
      WorkWithout(q[..n], i);
      var r := Without(q, i);
      assert r[|r| - 1] == q[n] && r[..|r| - 1] == Without(q[..n], i);
    }
  }

  lemma WorkEnqueued(q: seq<Entry>, e: Entry)
    ensures Work(Enqueued(q, e)) <= Work(q) + Max(1, e.priority)
  {
    assert (q + [e])[..|q|] == q;
  }

  /** Every turn uses up work, whatever the session answers. */
  lemma TurnUsesWork(w: World, a: Answer)
    requires w.queue != []
    ensures Work(Turn(w, a).queue) < Work(w.queue)
  {
    var b := Best(w.queue);
    var e := w.queue[b];
    WorkWithout(w.queue, b);
    WorkEnqueued(Without(w.queue, b), Demoted(e));
  }

  /** `process_queue` from its `k`-th attempt, with `done` successes in this round. */
  ghost function Process(w: World, answers: Answers, k: nat, done: nat): World
    decreases Work(w.queue)
  {
    if MayProcess(w, done) then
      TurnUsesWork(w, answers(k));
      Process(Turn(w, answers(k)), answers, k + 1, if Succeeds(Next(w), answers(k)) then done + 1 else done)
    else w
  }

  /** Unfolds `Process` once. */
  lemma ProcessTurn(w: World, answers: Answers, k: nat, done: nat)
    requires MayProcess(w, done)
    ensures Work(Turn(w, answers(k)).queue) < Work(w.queue)
    ensures Process(w, answers, k, done) ==
      Process(Turn(w, answers(k)), answers, k + 1,
              if Succeeds(Next(w), answers(k)) then done + 1 else done)
  {
    TurnUsesWork(w, answers(k));
  }

  lemma ProcessStops(w: World, answers: Answers, k: nat, done: nat)
    requires !MayProcess(w, done)
    ensures Process(w, answers, k, done) == w
  {
  }

  // ----- The public calls -----

  predicate Handled(w: World, h: Text) {
    h in w.active || h in Hashes(w.queue)
  }

  function Admitted(w: World, e: Entry): World {
    w.(queue := Enqueued(w.queue, e), totalQueued := w.totalQueued + 1,
       log := w.log.(granted := w.log.granted[e.hash := e], tries := w.log.tries[e.hash := 0]))
  }

  ghost function Requested(w: World, e: Entry, answers: Answers): World {
    if !w.session || Handled(w, e.hash) then w else Process(Admitted(w, e), answers, 0, 0)
  }

  function Received(w: World, h: Text): World {
    w.(active := w.active - {h}, success := w.success + 1,
       log := w.log.(received := w.log.received + if h in w.active then 1 else 0))
  }

  /** `duration_cast<seconds>` truncates toward zero. */
  function WholeSeconds(ticks: int): int {
    if ticks >= 0 then ticks / 1_000_000_000 else -(-ticks / 1_000_000_000)
  }

  predicate TimedOut(i: Info, now: int, timeoutSec: int) {
    WholeSeconds(now - i.requestTime) >= timeoutSec
  }

  function Expired(w: World, now: int): set<Text> {
    set h | h in w.active && TimedOut(w.active[h], now, w.timeoutSec)
  }

  function Swept(w: World, gone: set<Text>): World {
    w.(active := w.active - gone, timeouts := w.timeouts + |gone|)
  }

  ghost function CleanedUp(w: World, now: int, answers: Answers): World {
    var gone := Expired(w, now);
    if gone == {} then w else Process(Swept(w, gone), answers, 0, 0)
  }

  function AdjustedLimit(w: World): Int32 {
    if |w.queue| > 2000 && w.timeouts < w.success / 10 then
      if w.limit < 1000 then Min(1000, w.limit + 100) else w.limit
    else if w.timeouts > w.success / 5 && w.limit > 200 then Max(200, w.limit - 50)
    else w.limit
  }

  ghost function Elements(hs: seq<Text>): set<Text> {
    set h | h in hs
  }

  /** The loop of `cleanup_timed_out_requests`. */
  method RemoveRequests(active: map<Text, Info>, hashes: seq<Text>) returns (left: map<Text, Info>, cleaned: nat)
    requires forall i, j :: 0 <= i < j < |hashes| ==> hashes[i] != hashes[j]
    ensures left == active - Elements(hashes) && cleaned == |Elements(hashes)|
  {
    left, cleaned := active, 0;
    while cleaned < |hashes|
      invariant 0 <= cleaned <= |hashes|
      invariant left == active - Elements(hashes[..cleaned])
    {
      ElementsStep(hashes, cleaned);
      left := left - {hashes[cleaned]};
      cleaned := cleaned + 1;
    }
    assert hashes[..cleaned] == hashes;
    ElementsCount(hashes);
  }

  lemma ElementsStep(hashes: seq<Text>, i: nat)
    requires i < |hashes|
    ensures Elements(hashes[..i + 1]) == Elements(hashes[..i]) + {hashes[i]}
  {
    assert hashes[..i + 1] == hashes[..i] + [hashes[i]];
  }

  lemma {:induction false} ElementsCount(hashes: seq<Text>)
    requires forall i, j :: 0 <= i < j < |hashes| ==> hashes[i] != hashes[j]
    ensures |Elements(hashes)| == |hashes|
  {
    if hashes == [] {
      assert Elements(hashes) == {};
    } else {
      var n := |hashes| - 1;
      ElementsCount(hashes[..n]);
      ElementsStep(hashes, n);
      assert hashes[..n + 1] == hashes;
      assert hashes[n] !in Elements(hashes[..n]);
    }
  }

  class PersistentMetadataDownloader {
    const session: bool
    const queue: MetadataRequestQueue
    var active: map<Text, Info>
    var limit: Int32
    var timeoutSec: Int32
    var success: nat
    var failure: nat
    var timeouts: nat
    var totalQueued: nat
    var totalProcessed: nat
    ghost var log: Log

    ghost predicate Valid()
      reads this, queue
    {
      queue.Valid()
    }

    ghost function Model(): World
      reads this, queue
    {
      World(session, queue.queue, active, limit, timeoutSec, success, failure, timeouts, totalQueued, totalProcessed, log)
    }

    constructor (session: bool)
      ensures Valid() && Model() == START.(session := session) && fresh(queue)
    {
      this.session := session;
      queue := new MetadataRequestQueue();
      active, limit, timeoutSec := map[], 1000, 20;
      success, failure, timeouts, totalQueued, totalProcessed := 0, 0, 0, 0, 0;
      log := START.log;
    }

    method ProcessSingleRequest(e: Entry, a: Answer) returns (ok: bool)
      modifies this`active
      ensures ok == Succeeds(e, a)
      ensures active == if ok then old(active)[e.hash := Info(a.now, e.priority, e.source)] else old(active)
    {
      var hex := ConvertHashToHex(e.hash);
      ConvertibleIffConverted(e.hash);
      if hex == "" {
        return false;
      }
      ok := a.ok;
      if ok {
        active := active[e.hash := Info(a.now, e.priority, e.source)];
      }
    }

    method ProcessQueue(answers: Answers)
      requires Valid()
      modifies this, queue
      ensures Valid() && Model() == Process(old(Model()), answers, 0, 0)
    {
      var k, done := 0, 0;
      ghost var target := Process(Model(), answers, 0, 0);
      while queue.queue != [] && |active| < AsSize(limit) && done < MAX_PER_ROUND
        invariant Valid()
        invariant Process(Model(), answers, k, done) == target
        decreases Work(queue.queue)
      {
        ghost var w := Model();
        ProcessTurn(w, answers, k, done);
        var a := answers(k);
        var ok := TakeTurn(a);
        ghost var w' := Model();
        assert w' == Turn(w, a);
        done := if ok then done + 1 else done;
        k := k + 1;
        assert Process(w', answers, k, done) == target;
      }
      ProcessStops(Model(), answers, k, done);
    }

    method TakeTurn(a: Answer) returns (ok: bool)
      requires Valid() && queue.queue != []
      modifies this, queue
      ensures Valid() && Model() == Turn(old(Model()), a)
      ensures ok == Succeeds(Next(old(Model())), a)
    {
      ghost var w := Model();
      var next := queue.Dequeue();
      var e := next.value;
      log := Noted(log, e.hash);
      assert e == Next(w) && Model() == Taken(w);
      ok := ProcessSingleRequest(e, a);
      if ok {
        totalProcessed := totalProcessed + 1;
        assert Model() == Started(Taken(w), e, a.now);
      } else if e.priority > 1 {
        queue.Enqueue(Demoted(e));
        assert Model() == Requeued(Taken(w), e);
      } else {
        failure := failure + 1;
        log := log.(drops := log.drops + 1);
        assert Model() == Dropped(Taken(w));
      }
    }

    method RequestMetadata(hash: Text, priority: int, source: string, answers: Answers) returns (handled: bool)
      requires Valid()
      modifies this, queue
      ensures Valid() && handled == session
      ensures Model() == Requested(old(Model()), Entry(hash, priority, source), answers)
    {
      if !session {
        return false;
      }
      var queued := queue.Contains(hash);
      assert queued <==> hash in Hashes(queue.queue);
      if hash in active || queued {
        return true;
      }
      var e := Entry(hash, priority, source);
      queue.Enqueue(e);
      totalQueued := totalQueued + 1;
      log := log.(granted := log.granted[hash := e], tries := log.tries[hash := 0]);
      assert Model() == Admitted(old(Model()), e);
      ProcessQueue(answers);
      return true;
    }

    method HandleMetadataReceived(hash: Text, answers: Answers)
      requires Valid()
      modifies this, queue
      ensures Valid() && Model() == Process(Received(old(Model()), hash), answers, 0, 0)
    {
      log := log.(received := log.received + if hash in active then 1 else 0);
      active := active - {hash};
      success := success + 1;
      assert Model() == Received(old(Model()), hash);
      ProcessQueue(answers);
    }

    method GetTimedOutRequests(now: int) returns (timedOut: seq<Text>)
      requires Valid()
      ensures forall h :: h in timedOut <==> h in Expired(Model(), now)
      ensures forall i, j :: 0 <= i < j < |timedOut| ==> timedOut[i] != timedOut[j]
    {
      timedOut := [];
      var todo := active.Keys;
      while todo != {}
        invariant todo <= active.Keys
        invariant forall h :: h in timedOut <==> h in active.Keys - todo && TimedOut(active[h], now, timeoutSec)
        invariant forall i, j :: 0 <= i < j < |timedOut| ==> timedOut[i] != timedOut[j]
        decreases todo
      {
        var h :| h in todo;
        if TimedOut(active[h], now, timeoutSec) {
          timedOut := timedOut + [h];
        }
        todo := todo - {h};
      }
    }

    method CleanupTimedOutRequests(now: int, answers: Answers)
      requires Valid()
      modifies this, queue
      ensures Valid() && Model() == CleanedUp(old(Model()), now, answers)
    {
      var timedOut := GetTimedOutRequests(now);
      ghost var w := Model();
      assert Elements(timedOut) == Expired(w, now);
      var left, cleaned := RemoveRequests(active, timedOut);
      active := left;
      timeouts := timeouts + cleaned;
      assert Model() == Swept(w, Elements(timedOut));
      if cleaned > 0 {
        ProcessQueue(answers);
      }
    }

    method AdjustConcurrentLimit()
      requires Valid()
      modifies this
      ensures Valid() && Model() == old(Model()).(limit := AdjustedLimit(old(Model())))
    {
      if |queue.queue| > 2000 && timeouts < success / 10 {
        if limit < 1000 {
          limit := Min(1000, limit + 100);
        }
      } else if timeouts > success / 5 && limit > 200 {
        limit := Max(200, limit - 50);
      }
    }

    method SetMaxConcurrentRequests(max: Int32)
      requires Valid()
      modifies this
      ensures Valid() && Model() == old(Model()).(limit := max)
    {
      limit := max;
    }
  }
}
