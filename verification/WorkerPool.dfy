/** The metadata worker pool (`MetadataWorkerPool`) as interleaved atomic steps, one for each locked region
    and each atomic counter update: callers of `queue_request`, the workers, the alert thread, sweeps of
    timed-out requests, bare calls that only collect them, and shutdown. */
module WorkerPool {
  import opened Wrappers
  import opened Totals

  type Hash = string

  /** A worker between two steps. After the pending map is updated a request is still in the worker's
      hands until both counters have been bumped. */
  datatype Worker = Top | Waiting | Holding(hash: Hash) | Tracked(hash: Hash) | Counted(hash: Hash) | Stopped

  /** A call of `queue_request` between two steps, and how it ended. */
  datatype Caller = Entered(hash: Hash) | Open(hash: Hash) | Checked(hash: Hash) | Refused | Duplicate | Queued

  datatype Stats = Stats(processed: nat, successful: nat, failed: nat, timeout: nat)

  /** What became of one insertion into the pending map. */
  datatype Fate = Pending | Received | Swept | Collected | Overwritten | Cleared

  datatype Slot = Slot(time: int, ticket: nat)

  /** A sweep by `cleanup_timeouts` that still has `left` timed-out hashes to report, the first of them from worker `next` on. */
  datatype Sweep = Sweep(left: nat, next: nat)

  datatype Phase = Running | Stopping | Down

  datatype Pool = Pool(
    timeout: int,
    queue: seq<Hash>,
    pending: map<Hash, Slot>,
    workers: seq<Worker>,
    callers: seq<Caller>,
    stats: seq<Stats>,
    totalQueued: nat,
    totalProcessed: nat,
    phase: Phase,
    alert: Option<nat>,
    sweeps: seq<Sweep>,
    ledger: seq<Fate>)

  datatype Step =
    | Call(hash: Hash)
    | CheckShutdown(caller: nat)
    | CheckPending(caller: nat)
    | Enqueue(caller: nat)
    | LoopTop(worker: nat)
    | Take(worker: nat)
    | Fail(worker: nat)
    | Track(worker: nat, now: int)
    | CountWorker(worker: nat)
    | CountTotal(worker: nat)
    | Receive(hash: Hash)
    | Credit
    | SweepOut(now: int)
    | Debit(sweep: nat)
    | Collect(now: int)
    | Shutdown
    | Join

  /** The alert thread holds the pending lock while it credits the workers. */
  predicate PendingFree(s: Pool) {
    s.alert.None?
  }

  predicate Enabled(s: Pool, e: Step) {
    match e
    case Call(_) => true
    case CheckShutdown(i) => i < |s.callers| && s.callers[i].Entered?
    case CheckPending(i) => i < |s.callers| && s.callers[i].Open? && PendingFree(s)
    case Enqueue(i) => i < |s.callers| && s.callers[i].Checked?
    case LoopTop(w) => w < |s.workers| && s.workers[w].Top?
    case Take(w) => w < |s.workers| && s.workers[w].Waiting? && (s.queue != [] || s.phase != Running)
    case Fail(w) => w < |s.workers| && w < |s.stats| && s.workers[w].Holding?
    case Track(w, _) => w < |s.workers| && s.workers[w].Holding? && PendingFree(s)
    case CountWorker(w) => w < |s.workers| && w < |s.stats| && s.workers[w].Tracked?
    case CountTotal(w) => w < |s.workers| && s.workers[w].Counted?
    case Receive(_) => PendingFree(s)
    case Credit => s.alert.Some? && s.alert.value < |s.stats|
    case SweepOut(_) => PendingFree(s)
    case Collect(_) => PendingFree(s)
    case Debit(j) => j < |s.sweeps| && 0 < s.sweeps[j].left && s.sweeps[j].next < |s.stats|
    case Shutdown => s.phase == Running
    case Join => s.phase == Stopping && PendingFree(s) && forall w :: 0 <= w < |s.workers| ==> s.workers[w].Stopped?
  }

  function Closed(ledger: seq<Fate>, tickets: set<nat>, fate: Fate): (l: seq<Fate>)
    ensures |l| == |ledger|
  {
    seq(|ledger|, t requires 0 <= t < |ledger| => if t in tickets then fate else ledger[t])
  }

  function TicketsOf(pending: map<Hash, Slot>, hashes: set<Hash>): set<nat> {
    set h | h in hashes && h in pending :: pending[h].ticket
  }

  function Expired(s: Pool, now: int): set<Hash> {
    set h | h in s.pending && now - s.pending[h].time > s.timeout
  }

  function Apply(s: Pool, e: Step): Pool
    requires Enabled(s, e)
  {
    match e
    case Call(h) => s.(callers := s.callers + [Entered(h)])
    case CheckShutdown(i) =>
      s.(callers := s.callers[i := if s.phase == Running then Open(s.callers[i].hash) else Refused])
    case CheckPending(i) =>
      s.(callers := s.callers[i := if s.callers[i].hash in s.pending then Duplicate else Checked(s.callers[i].hash)])
    case Enqueue(i) =>
      s.(callers := s.callers[i := Queued], queue := s.queue + [s.callers[i].hash], totalQueued := s.totalQueued + 1)
    case LoopTop(w) => s.(workers := s.workers[w := if s.phase == Running then Waiting else Stopped])
    case Take(w) =>
      if s.phase == Running && s.queue != [] then
        s.(workers := s.workers[w := Holding(s.queue[0])], queue := s.queue[1..])
      else s.(workers := s.workers[w := Top])
    case Fail(w) =>
      s.(workers := s.workers[w := Top], stats := s.stats[w := s.stats[w].(failed := s.stats[w].failed + 1)])
    case Track(w, now) =>
      var h := s.workers[w].hash;
      s.(workers := s.workers[w := Tracked(h)],
         pending := s.pending[h := Slot(now, |s.ledger|)],
         ledger := Closed(s.ledger, TicketsOf(s.pending, {h}), Overwritten) + [Pending])
    case CountWorker(w) =>
      s.(workers := s.workers[w := Counted(s.workers[w].hash)],
         stats := s.stats[w := s.stats[w].(processed := s.stats[w].processed + 1)])
    case CountTotal(w) => s.(workers := s.workers[w := Top], totalProcessed := s.totalProcessed + 1)
    case Receive(h) =>
      if h in s.pending then
        s.(pending := s.pending - {h}, ledger := Closed(s.ledger, TicketsOf(s.pending, {h}), Received),
           alert := if s.stats == [] then None else Some(0))
      else s
    case Credit =>
      var k := s.alert.value;
      s.(stats := s.stats[k := s.stats[k].(successful := s.stats[k].successful + 1)],
         alert := if k + 1 < |s.stats| then Some(k + 1) else None)
    case SweepOut(now) =>
      var gone := Expired(s, now);
      s.(pending := s.pending - gone, ledger := Closed(s.ledger, TicketsOf(s.pending, gone), Swept),
         sweeps := s.sweeps + [Sweep(if s.stats == [] then 0 else |gone|, 0)])
    case Debit(j) =>
      var Sweep(left, k) := s.sweeps[j];
      s.(stats := s.stats[k := s.stats[k].(timeout := s.stats[k].timeout + 1)],
         sweeps := s.sweeps[j := if k + 1 < |s.stats| then Sweep(left, k + 1) else Sweep(left - 1, 0)])
    case Collect(now) =>
      var gone := Expired(s, now);
      s.(pending := s.pending - gone, ledger := Closed(s.ledger, TicketsOf(s.pending, gone), Collected))
    case Shutdown => s.(phase := Stopping)
    case Join =>
      s.(phase := Down, pending := map[], ledger := Closed(s.ledger, TicketsOf(s.pending, s.pending.Keys), Cleared))
  }

  function Start(n: nat, timeout: int): Pool {
    Pool(timeout, [], map[], seq(n, _ => Top), [], seq(n, _ => Stats(0, 0, 0, 0)), 0, 0, Running, None, [], [])
  }

  /** The state after a sequence of steps, if each was enabled in turn. */
  function Run(n: nat, timeout: int, steps: seq<Step>): Option<Pool> {
    if steps == [] then Some(Start(n, timeout))
    else
      var before := Run(n, timeout, steps[..|steps| - 1]);
      var e := steps[|steps| - 1];
      if before.Some? && Enabled(before.value, e) then Some(Apply(before.value, e)) else None
  }

  // ----- Totals -----

  ghost function Failures(stats: seq<Stats>): seq<nat> {
    seq(|stats|, i requires 0 <= i < |stats| => stats[i].failed)
  }

  ghost function Processed(stats: seq<Stats>): seq<nat> {
    seq(|stats|, i requires 0 <= i < |stats| => stats[i].processed)
  }

  ghost function Successes(stats: seq<Stats>): seq<nat> {
    seq(|stats|, i requires 0 <= i < |stats| => stats[i].successful)
  }

  ghost function Timeouts(stats: seq<Stats>): seq<nat> {
    seq(|stats|, i requires 0 <= i < |stats| => stats[i].timeout)
  }

  /** One for each worker with a request in its hands. */
  ghost function Hands(workers: seq<Worker>): seq<nat> {
    seq(|workers|, i requires 0 <= i < |workers| => Hand(workers[i]))
  }

  ghost function Hand(w: Worker): nat {
    if w.Holding? || w.Tracked? || w.Counted? then 1 else 0
  }

  ghost function HalfCounted(workers: seq<Worker>): seq<nat> {
    seq(|workers|, i requires 0 <= i < |workers| => Half(workers[i]))
  }

  ghost function Half(w: Worker): nat {
    if w.Counted? then 1 else 0
  }

  ghost function Enqueues(callers: seq<Caller>): seq<nat> {
    seq(|callers|, i requires 0 <= i < |callers| => if callers[i].Queued? then 1 else 0)
  }

  ghost function Tally(ledger: seq<Fate>, f: Fate): seq<nat> {
    seq(|ledger|, i requires 0 <= i < |ledger| => if ledger[i] == f then 1 else 0)
  }

  /** Insertions that ended in `f`. */
  ghost function Ended(s: Pool, f: Fate): nat {
    Total(Tally(s.ledger, f))
  }

  /** Increments of worker `i`'s timeout counter that running sweeps still owe. */
  ghost function Owed(sweeps: seq<Sweep>, i: nat): seq<nat> {
    seq(|sweeps|, j requires 0 <= j < |sweeps| => Due(sweeps[j], i))
  }

  ghost function Due(w: Sweep, i: nat): nat {
    if w.left > 0 && i < w.next then w.left - 1 else w.left
  }

  // ----- The invariant -----

  ghost predicate Shape(s: Pool) {
    && |s.stats| == |s.workers|
    && (s.alert.Some? ==> s.alert.value < |s.stats|)
    && (forall j :: 0 <= j < |s.sweeps| ==> s.sweeps[j].left == 0 || s.sweeps[j].next < |s.stats|)
  }

  /** Every accepted request is in the queue, in a worker's hands, processed or failed. */
  ghost predicate Flow(s: Pool) {
    && s.totalQueued == |s.queue| + Total(Hands(s.workers)) + s.totalProcessed + Total(Failures(s.stats))
    && s.totalQueued == Total(Enqueues(s.callers))
    && Total(Processed(s.stats)) == s.totalProcessed + Total(HalfCounted(s.workers))
  }

  /** The open tickets are exactly those of the pending entries, one each. */
  ghost predicate Tickets(s: Pool) {
    && (forall h :: h in s.pending ==> s.pending[h].ticket < |s.ledger| && s.ledger[s.pending[h].ticket] == Pending)
    && (forall h, g :: h in s.pending && g in s.pending && s.pending[h].ticket == s.pending[g].ticket ==> h == g)
    && (forall t :: 0 <= t < |s.ledger| && s.ledger[t] == Pending ==> exists h :: h in s.pending && s.pending[h].ticket == t)
  }

  /** Each worker is credited once for each receipt, up to the one the alert thread is working on. */
  ghost predicate Credited(s: Pool) {
    forall i :: 0 <= i < |s.stats| ==>
      s.stats[i].successful + (if s.alert.Some? && s.alert.value <= i then 1 else 0) == Ended(s, Received)
  }

  /** Each worker is charged once for each entry swept by `cleanup_timeouts`, up to what running sweeps
      still owe, and never for an entry a bare `get_timed_out_requests` collected. */
  ghost predicate Charged(s: Pool) {
    forall i :: 0 <= i < |s.stats| ==> s.stats[i].timeout + Total(Owed(s.sweeps, i)) == Ended(s, Swept)
  }

  ghost predicate Phased(s: Pool) {
    s.phase == Down ==> s.pending == map[] && forall w :: 0 <= w < |s.workers| ==> s.workers[w].Stopped?
  }

  ghost predicate Inv(s: Pool) {
    Shape(s) && Flow(s) && Tickets(s) && Credited(s) && Charged(s) && Phased(s)
  }

  // ----- Totals under one update -----

  lemma WorkerMoves(workers: seq<Worker>, w: nat, x: Worker)
    requires w < |workers|
    ensures Total(Hands(workers[w := x])) + Hand(workers[w]) == Total(Hands(workers)) + Hand(x)
    ensures Total(HalfCounted(workers[w := x])) + Half(workers[w]) == Total(HalfCounted(workers)) + Half(x)
  {
    TotalUpdate(Hands(workers), w, Hand(x));
    assert Hands(workers[w := x]) == Hands(workers)[w := Hand(x)];
    TotalUpdate(HalfCounted(workers), w, Half(x));
    assert HalfCounted(workers[w := x]) == HalfCounted(workers)[w := Half(x)];
  }

  lemma StatsMove(stats: seq<Stats>, w: nat, x: Stats)
    requires w < |stats|
    ensures Total(Failures(stats[w := x])) + stats[w].failed == Total(Failures(stats)) + x.failed
    ensures Total(Processed(stats[w := x])) + stats[w].processed == Total(Processed(stats)) + x.processed
  {
    TotalUpdate(Failures(stats), w, x.failed);
    assert Failures(stats[w := x]) == Failures(stats)[w := x.failed];
    TotalUpdate(Processed(stats), w, x.processed);
    assert Processed(stats[w := x]) == Processed(stats)[w := x.processed];
  }

  lemma CallerMoves(callers: seq<Caller>, i: nat, x: Caller)
    requires i < |callers| && !callers[i].Queued?
    ensures Total(Enqueues(callers[i := x])) == Total(Enqueues(callers)) + if x.Queued? then 1 else 0
  {
    var v := if x.Queued? then 1 else 0;
    TotalUpdate(Enqueues(callers), i, v);
    assert Enqueues(callers[i := x]) == Enqueues(callers)[i := v];
  }

  lemma CallerArrives(callers: seq<Caller>, h: Hash)
    ensures Total(Enqueues(callers + [Entered(h)])) == Total(Enqueues(callers))
  {
    TotalAppend(Enqueues(callers), 0);
    assert Enqueues(callers + [Entered(h)]) == Enqueues(callers) + [0];
  }

  /** Closing open tickets with one fate adds as many endings of that fate and of no other. */
  lemma {:induction false} TallyClosed(ledger: seq<Fate>, tickets: set<nat>, fate: Fate)
    requires fate != Pending && forall t :: t in tickets ==> t < |ledger| && ledger[t] == Pending
    ensures Total(Tally(Closed(ledger, tickets, fate), fate)) == Total(Tally(ledger, fate)) + |tickets|
  {
    if ledger == [] {
      assert tickets == {};
    } else {
      var n := |ledger| - 1;
      var rest := tickets - {n};
      TallyClosed(ledger[..n], rest, fate);
      var l := Closed(ledger, tickets, fate);
      assert l[..n] == Closed(ledger[..n], rest, fate);
      TallyLast(l, fate);
      TallyLast(ledger, fate);
      assert n in tickets ==> |tickets| == |rest| + 1;
      assert n !in tickets ==> rest == tickets;
    }
  }

  lemma TallyLast(ledger: seq<Fate>, f: Fate)
    requires ledger != []
    ensures var n := |ledger| - 1;
      Total(Tally(ledger, f)) == Total(Tally(ledger[..n], f)) + if ledger[n] == f then 1 else 0
  {
    var n := |ledger| - 1;
    assert Tally(ledger, f)[..n] == Tally(ledger[..n], f);
  }

  lemma TallyOther(ledger: seq<Fate>, tickets: set<nat>, fate: Fate, f: Fate)
    requires forall t :: t in tickets ==> t < |ledger| && ledger[t] == Pending
    requires f != Pending && f != fate
    ensures Tally(Closed(ledger, tickets, fate), f) == Tally(ledger, f)
  {
  }

  lemma TallyOpened(ledger: seq<Fate>, f: Fate)
    requires f != Pending
    ensures Total(Tally(ledger + [Pending], f)) == Total(Tally(ledger, f))
  {
    TotalAppend(Tally(ledger, f), 0);
    assert Tally(ledger + [Pending], f) == Tally(ledger, f) + [0];
  }

  lemma {:induction false} OneTicketEach(s: Pool, hashes: set<Hash>)
    requires Tickets(s) && hashes <= s.pending.Keys
    ensures |TicketsOf(s.pending, hashes)| == |hashes|
    decreases hashes
  {
    if hashes == {} {
      assert TicketsOf(s.pending, hashes) == {};
    } else {
      var h :| h in hashes;
      var rest := hashes - {h};
      OneTicketEach(s, rest);
      assert s.pending[h].ticket !in TicketsOf(s.pending, rest);
      assert TicketsOf(s.pending, hashes) == TicketsOf(s.pending, rest) + {s.pending[h].ticket};
    }
  }

  lemma TicketsOpen(s: Pool, hashes: set<Hash>)
    requires Tickets(s)
    ensures forall t :: t in TicketsOf(s.pending, hashes) ==> t < |s.ledger| && s.ledger[t] == Pending
  {
  }

  // ----- Every step keeps the invariant -----

  lemma StepKeepsShape(s: Pool, e: Step)
    requires Shape(s) && Enabled(s, e)
    ensures Shape(Apply(s, e)) && |Apply(s, e).stats| == |s.stats|
  {
  }

  lemma StepKeepsPhased(s: Pool, e: Step)
    requires Phased(s) && Enabled(s, e)
    ensures Phased(Apply(s, e))
  {
  }

  lemma CallerStepKeepsFlow(s: Pool, e: Step)
    requires Flow(s) && Enabled(s, e) && (e.Call? || e.CheckShutdown? || e.CheckPending? || e.Enqueue?)
    ensures Flow(Apply(s, e))
  {
    if e.Call? {
      CallerArrives(s.callers, e.hash);
    } else {
      CallerMoves(s.callers, e.caller, Apply(s, e).callers[e.caller]);
    }
  }

  lemma WorkerStepKeepsFlow(s: Pool, e: Step)
    requires Shape(s) && Flow(s) && Enabled(s, e)
    requires e.LoopTop? || e.Take? || e.Track? || e.CountTotal?
    ensures Flow(Apply(s, e))
  {
    WorkerMoves(s.workers, e.worker, Apply(s, e).workers[e.worker]);
  }

  lemma CountingStepKeepsFlow(s: Pool, e: Step)
    requires Shape(s) && Flow(s) && Enabled(s, e) && (e.Fail? || e.CountWorker?)
    ensures Flow(Apply(s, e))
  {
    var s' := Apply(s, e);
    WorkerMoves(s.workers, e.worker, s'.workers[e.worker]);
    StatsMove(s.stats, e.worker, s'.stats[e.worker]);
  }

  lemma OtherStepKeepsFlow(s: Pool, e: Step)
    requires Shape(s) && Flow(s) && Enabled(s, e)
    requires e.Receive? || e.Credit? || e.SweepOut? || e.Debit? || e.Collect? || e.Shutdown? || e.Join?
    ensures Flow(Apply(s, e))
  {
    var s' := Apply(s, e);
    if e.Credit? {
      StatsMove(s.stats, s.alert.value, s'.stats[s.alert.value]);
    } else if e.Debit? {
      StatsMove(s.stats, s.sweeps[e.sweep].next, s'.stats[s.sweeps[e.sweep].next]);
    }
  }

  lemma StepKeepsFlow(s: Pool, e: Step)
    requires Shape(s) && Flow(s) && Enabled(s, e)
    ensures Flow(Apply(s, e))
  {
    if e.Call? || e.CheckShutdown? || e.CheckPending? || e.Enqueue? {
      CallerStepKeepsFlow(s, e);
    } else if e.LoopTop? || e.Take? || e.Track? || e.CountTotal? {
      WorkerStepKeepsFlow(s, e);
    } else if e.Fail? || e.CountWorker? {
      CountingStepKeepsFlow(s, e);
    } else {
      OtherStepKeepsFlow(s, e);
    }
  }

  /** Removing entries and closing their tickets. */
  lemma ClosingKeepsTickets(s: Pool, hashes: set<Hash>, fate: Fate, s': Pool)
    requires Tickets(s) && fate != Pending
    requires s'.pending == s.pending - hashes && s'.ledger == Closed(s.ledger, TicketsOf(s.pending, hashes), fate)
    ensures Tickets(s')
  {
    forall t | 0 <= t < |s'.ledger| && s'.ledger[t] == Pending
      ensures exists h :: h in s'.pending && s'.pending[h].ticket == t
    {
      assert s.ledger[t] == Pending;
      var h :| h in s.pending && s.pending[h].ticket == t;
      assert h !in hashes;
      assert h in s'.pending;
    }
    forall h | h in s'.pending ensures s'.pending[h].ticket !in TicketsOf(s.pending, hashes) {
    }
  }

  lemma OpeningKeepsTickets(s: Pool, h: Hash, now: int, s': Pool)
    requires Tickets(s) && h !in s.pending
    requires s'.pending == s.pending[h := Slot(now, |s.ledger|)] && s'.ledger == s.ledger + [Pending]
    ensures Tickets(s')
  {
    forall t | 0 <= t < |s'.ledger| && s'.ledger[t] == Pending
      ensures exists g :: g in s'.pending && s'.pending[g].ticket == t
    {
      if t == |s.ledger| {
        assert h in s'.pending && s'.pending[h].ticket == t;
      } else {
        assert s.ledger[t] == Pending;
        var g :| g in s.pending && s.pending[g].ticket == t;
        assert g in s'.pending && s'.pending[g].ticket == t;
      }
    }
  }

  lemma ReplacingKeepsTickets(s: Pool, h: Hash, now: int, s': Pool)
    requires Tickets(s) && s'.pending == s.pending[h := Slot(now, |s.ledger|)]
    requires s'.ledger == Closed(s.ledger, TicketsOf(s.pending, {h}), Overwritten) + [Pending]
    ensures Tickets(s')
  {
    var mid := s.(pending := s.pending - {h}, ledger := Closed(s.ledger, TicketsOf(s.pending, {h}), Overwritten));
    ClosingKeepsTickets(s, {h}, Overwritten, mid);
    assert s'.pending == mid.pending[h := Slot(now, |mid.ledger|)];
    OpeningKeepsTickets(mid, h, now, s');
  }

  lemma StepKeepsTickets(s: Pool, e: Step)
    requires Tickets(s) && Enabled(s, e)
    ensures Tickets(Apply(s, e))
  {
    var s' := Apply(s, e);
    if e.Track? {
      ReplacingKeepsTickets(s, s.workers[e.worker].hash, e.now, s');
    } else if Closing(s, e) != {} {
      ClosingStep(s, e);
      ClosingKeepsTickets(s, Closing(s, e), FateOf(e), s');
    } else {
      NoClosingStep(s, e);
    }
  }

  /** The entries a step removes from the pending map. */
  ghost function Closing(s: Pool, e: Step): set<Hash> {
    match e
    case Receive(h) => if h in s.pending then {h} else {}
    case SweepOut(now) => Expired(s, now)
    case Collect(now) => Expired(s, now)
    case Join => s.pending.Keys
    case _ => {}
  }

  /** How they end. */
  ghost function FateOf(e: Step): Fate {
    match e
    case Receive(_) => Received
    case SweepOut(_) => Swept
    case Collect(_) => Collected
    case _ => Cleared
  }

  lemma ClosingStep(s: Pool, e: Step)
    requires Enabled(s, e) && !e.Track? && Closing(s, e) != {}
    ensures
      var s' := Apply(s, e);
      && s'.pending == s.pending - Closing(s, e)
      && s'.ledger == Closed(s.ledger, TicketsOf(s.pending, Closing(s, e)), FateOf(e))
  {
    if e.Join? {
      assert s.pending - s.pending.Keys == map[];
    }
  }

  lemma NoClosingStep(s: Pool, e: Step)
    requires Enabled(s, e) && !e.Track? && Closing(s, e) == {}
    ensures Apply(s, e).pending == s.pending && Apply(s, e).ledger == s.ledger
  {
    NoneClosed(s.ledger, s.pending, FateOf(e));
    assert s.pending - {} == s.pending;
    if e.Join? {
      assert s.pending == map[];
    }
  }

  lemma NoneClosed(ledger: seq<Fate>, pending: map<Hash, Slot>, fate: Fate)
    ensures Closed(ledger, TicketsOf(pending, {}), fate) == ledger
  {
  }

  /** How each step changes the number of endings of each kind: removed entries end as the step says, and
      starting a request again only overwrites. */
  lemma EndingsMove(s: Pool, e: Step, f: Fate)
    requires Tickets(s) && Enabled(s, e) && f != Pending && f != Overwritten
    ensures Ended(Apply(s, e), f) == Ended(s, f) + if f == FateOf(e) then |Closing(s, e)| else 0
  {
    if e.Track? {
      var h := s.workers[e.worker].hash;
      var ts := TicketsOf(s.pending, {h});
      TicketsOpen(s, {h});
      TallyOther(s.ledger, ts, Overwritten, f);
      TallyOpened(Closed(s.ledger, ts, Overwritten), f);
    } else if Closing(s, e) != {} {
      var gone := Closing(s, e);
      ClosingStep(s, e);
      TicketsOpen(s, gone);
      if f == FateOf(e) {
        OneTicketEach(s, gone);
        TallyClosed(s.ledger, TicketsOf(s.pending, gone), f);
      } else {
        TallyOther(s.ledger, TicketsOf(s.pending, gone), FateOf(e), f);
      }
    } else {
      NoClosingStep(s, e);
    }
  }

  lemma StepKeepsCredited(s: Pool, e: Step)
    requires Shape(s) && Tickets(s) && Credited(s) && Enabled(s, e)
    ensures Credited(Apply(s, e))
  {
    EndingsMove(s, e, Received);
    var s' := Apply(s, e);
    forall i | 0 <= i < |s'.stats|
      ensures s'.stats[i].successful + (if s'.alert.Some? && s'.alert.value <= i then 1 else 0) == Ended(s', Received)
    {
      assert s.stats[i].successful + (if s.alert.Some? && s.alert.value <= i then 1 else 0) == Ended(s, Received);
    }
  }

  lemma SweepMoves(sweeps: seq<Sweep>, j: nat, x: Sweep, i: nat)
    requires j < |sweeps|
    ensures Total(Owed(sweeps[j := x], i)) + Due(sweeps[j], i) == Total(Owed(sweeps, i)) + Due(x, i)
  {
    TotalUpdate(Owed(sweeps, i), j, Due(x, i));
    assert Owed(sweeps[j := x], i) == Owed(sweeps, i)[j := Due(x, i)];
  }

  lemma SweepStarts(sweeps: seq<Sweep>, x: Sweep, i: nat)
    ensures Total(Owed(sweeps + [x], i)) == Total(Owed(sweeps, i)) + Due(x, i)
  {
    TotalAppend(Owed(sweeps, i), Due(x, i));
    assert Owed(sweeps + [x], i) == Owed(sweeps, i) + [Due(x, i)];
  }

  lemma StepKeepsCharged(s: Pool, e: Step)
    requires Shape(s) && Tickets(s) && Charged(s) && Enabled(s, e)
    ensures Charged(Apply(s, e))
  {
    EndingsMove(s, e, Swept);
    var s' := Apply(s, e);
    forall i | 0 <= i < |s'.stats| ensures s'.stats[i].timeout + Total(Owed(s'.sweeps, i)) == Ended(s', Swept) {
      assert s.stats[i].timeout + Total(Owed(s.sweeps, i)) == Ended(s, Swept);
      if e.SweepOut? {
        SweepStarts(s.sweeps, s'.sweeps[|s.sweeps|], i);
      } else if e.Debit? {
        SweepMoves(s.sweeps, e.sweep, s'.sweeps[e.sweep], i);
      }
    }
  }

  lemma StepKeepsInv(s: Pool, e: Step)
    requires Inv(s) && Enabled(s, e)
    ensures Inv(Apply(s, e))
  {
    StepKeepsShape(s, e);
    StepKeepsFlow(s, e);
    StepKeepsTickets(s, e);
    StepKeepsCredited(s, e);
    StepKeepsCharged(s, e);
    StepKeepsPhased(s, e);
  }

  lemma StartInv(n: nat, timeout: int)
    ensures Inv(Start(n, timeout))
  {
    var s := Start(n, timeout);
    TotalZero(Hands(s.workers));
    TotalZero(HalfCounted(s.workers));
    TotalZero(Failures(s.stats));
    TotalZero(Processed(s.stats));
  }

  /** At every step of every interleaving: queued = in queue + in hands + processed + failed, and the
      ledgers of pending entries, receipts and sweeps balance. */
  lemma {:induction false} ReachableInv(n: nat, timeout: int, steps: seq<Step>)
    ensures var r := Run(n, timeout, steps); r.Some? ==> Inv(r.value) && |r.value.stats| == n
  {
    if steps == [] {
      StartInv(n, timeout);
    } else {
      var k := |steps| - 1;
      ReachableInv(n, timeout, steps[..k]);
      var before := Run(n, timeout, steps[..k]);
      if before.Some? && Enabled(before.value, steps[k]) {
        StepKeepsShape(before.value, steps[k]);
        StepKeepsInv(before.value, steps[k]);
      }
    }
  }

  /** A pending entry leaves once: whatever ended it, no later step changes that. */
  lemma FatesAreFinal(s: Pool, e: Step, t: nat)
    requires Tickets(s) && Enabled(s, e) && t < |s.ledger| && s.ledger[t] != Pending
    ensures t < |Apply(s, e).ledger| && Apply(s, e).ledger[t] == s.ledger[t]
  {
    match e
    case Track(w, _) => TicketsOpen(s, {s.workers[w].hash});
    case Receive(h) => TicketsOpen(s, {h});
    case SweepOut(now) => TicketsOpen(s, Expired(s, now));
    case Collect(now) => TicketsOpen(s, Expired(s, now));
    case Join => TicketsOpen(s, s.pending.Keys);
    case _ =>
  }

  /** No `cleanup_timeouts` call still owes anything to a counter. */
  ghost predicate SweepsDone(s: Pool) {
    forall j :: 0 <= j < |s.sweeps| ==> s.sweeps[j].left == 0
  }

  /** `get_stats` reports each receipt and each entry swept by `cleanup_timeouts` once per worker: with no
      report in progress, the totals are num_workers times those. */
  lemma ReportedTotals(n: nat, timeout: int, steps: seq<Step>)
    requires Run(n, timeout, steps).Some?
    ensures
      var s := Run(n, timeout, steps).value;
      && (s.alert.None? ==> Total(Successes(s.stats)) == n * Ended(s, Received))
      && (SweepsDone(s) ==> Total(Timeouts(s.stats)) == n * Ended(s, Swept))
  {
    ReachableInv(n, timeout, steps);
    var s := Run(n, timeout, steps).value;
    if s.alert.None? {
      TotalConstant(Successes(s.stats), Ended(s, Received));
    }
    if SweepsDone(s) {
      forall i | 0 <= i < |s.stats| ensures Timeouts(s.stats)[i] == Ended(s, Swept) {
        TotalZero(Owed(s.sweeps, i));
      }
      TotalConstant(Timeouts(s.stats), Ended(s, Swept));
    }
  }

  /** No call of `get_timed_out_requests` outside `cleanup_timeouts` found anything to remove. */
  ghost predicate NothingCollected(n: nat, timeout: int, steps: seq<Step>)
    requires Run(n, timeout, steps).Some?
  {
    steps == [] ||
      var k := |steps| - 1;
      && NothingCollected(n, timeout, steps[..k])
      && (steps[k].Collect? ==> Expired(Run(n, timeout, steps[..k]).value, steps[k].now) == {})
  }

  lemma {:induction false} CollectedCount(n: nat, timeout: int, steps: seq<Step>)
    requires Run(n, timeout, steps).Some?
    ensures Ended(Run(n, timeout, steps).value, Collected) == 0 <==> NothingCollected(n, timeout, steps)
  {
    if steps != [] {
      var k := |steps| - 1;
      var s := Run(n, timeout, steps[..k]).value;
      CollectedCount(n, timeout, steps[..k]);
      ReachableInv(n, timeout, steps[..k]);
      EndingsMove(s, steps[k], Collected);
    }
  }

  /** Entries that left by timing out, counted or not. */
  ghost function TimedOut(s: Pool): nat {
    Ended(s, Swept) + Ended(s, Collected)
  }

  /** With no sweep in progress, the reported timeouts are num_workers times ALL entries that left by
      timing out exactly when no bare call ever removed one. */
  lemma TimeoutsReportedExactly(n: nat, timeout: int, steps: seq<Step>)
    requires 0 < n && Run(n, timeout, steps).Some? && SweepsDone(Run(n, timeout, steps).value)
    ensures
      var s := Run(n, timeout, steps).value;
      Total(Timeouts(s.stats)) == n * TimedOut(s) <==> NothingCollected(n, timeout, steps)
  {
    var s := Run(n, timeout, steps).value;
    ReportedTotals(n, timeout, steps);
    CountedTimeouts(s, n, Total(Timeouts(s.stats)));
    CollectedCount(n, timeout, steps);
  }

  lemma CountedTimeouts(s: Pool, n: nat, reported: nat)
    requires 0 < n
    ensures reported == n * Ended(s, Swept) ==> (reported == n * TimedOut(s) <==> Ended(s, Collected) == 0)
  {
    SameMultiple(n, Ended(s, Swept), Ended(s, Collected));
  }

  lemma SameMultiple(n: nat, a: nat, b: nat)
    requires 0 < n
    ensures n * a == n * (a + b) <==> b == 0
  {
    assert n * (a + b) == n * a + n * b;
  }

  /** After shutdown nothing is pending or in a worker's hands: accepted requests are processed, failed,
      or left in the queue for good. */
  lemma AfterShutdown(n: nat, timeout: int, steps: seq<Step>)
    requires Run(n, timeout, steps).Some? && Run(n, timeout, steps).value.phase == Down
    ensures
      var s := Run(n, timeout, steps).value;
      s.pending == map[] && s.totalQueued == |s.queue| + s.totalProcessed + Total(Failures(s.stats))
  {
    ReachableInv(n, timeout, steps);
    TotalZero(Hands(Run(n, timeout, steps).value.workers));
  }
}
